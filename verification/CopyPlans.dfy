/** The files of one copied directory, and the tree with these files laid over
    it, whatever stood there before. */
module CopyPlans {
  import opened Wrappers
  import opened Paths
  import opened PathStrings
  import opened TarHeaders
  import opened Layers
  import opened ScanTheory
  import opened Ancestors
  import opened LayerSteps
  import opened CopyLayers

  /** Files for a directory `d`: each path once, each after the directory that
      holds it. */
  ghost predicate IsPlan(d: Path, files: seq<CopiedFile>) {
    && (forall i | 0 <= i < |files| :: PlannedAt(d, files, i))
    && forall i, j | 0 <= i < j < |files| :: files[i].dst != files[j].dst
  }

  ghost predicate PlannedAt(d: Path, files: seq<CopiedFile>, i: nat)
    requires i < |files|
  {
    && Below(d, files[i].dst) && PlainParts(Parts(files[i].dst))
    && files[i].hdr.Supported() && files[i].hdr.name != ""
    && (files[i].dst.parent == d || exists j :: 0 <= j < i && IsDirAt(files, j, files[i].dst.parent))
  }

  predicate IsDirAt(files: seq<CopiedFile>, j: nat, p: Path)
    requires j < |files|
  {
    files[j].dst == p && files[j].hdr.IsDir()
  }

  /** The file brought to `p`. */
  function FileAt(files: seq<CopiedFile>, p: Path): (r: Option<CopiedFile>)
    ensures r.Some? <==> exists f :: f in files && f.dst == p
    ensures r.Some? ==> r.value in files && r.value.dst == p
  {
    if files == [] then None
    else if files[|files| - 1].dst == p then Some(files[|files| - 1])
    else
      var r := FileAt(files[..|files| - 1], p);
      assert forall f | f in files :: f in files[..|files| - 1] || f == files[|files| - 1];
      r
  }

  /** Is `p` below a file that is no directory? */
  ghost predicate Covered(files: seq<CopiedFile>, p: Path) {
    exists f :: f in files && !f.hdr.IsDir() && Below(f.dst, p)
  }

  /** What the tree holds at the place of a copied file: the file, unless a
      similar one is there already. */
  function LaidFile(v: View, f: CopiedFile): ContentFile {
    if f.dst !in v || !Similar(v[f.dst].hdr, f.hdr, false) then ContentFile(f.src, f.dst, f.hdr) else v[f.dst]
  }

  /** The files of a plan laid over a tree. */
  ghost function Laid(v: View, files: seq<CopiedFile>): View {
    map p | p in v.Keys + (set f | f in files :: f.dst) && (FileAt(files, p).Some? || !Covered(files, p))
         :: if FileAt(files, p).Some? then LaidFile(v, FileAt(files, p).value) else v[p]
  }

  /** Is the file new or different where it is copied to? */
  predicate Updates(v: View, f: CopiedFile) {
    f.dst.Sub? && (f.dst !in v || !Similar(v[f.dst].hdr, f.hdr, false))
  }

  // ----- one more file of a plan -----

  lemma PlanFront(d: Path, files: seq<CopiedFile>)
    requires IsPlan(d, files) && files != []
    ensures IsPlan(d, files[..|files| - 1])
    ensures FileAt(files[..|files| - 1], files[|files| - 1].dst).None?
  {
    var n := |files| - 1;
    var front := files[..n];
    forall i | 0 <= i < n ensures PlannedAt(d, front, i) {
      assert PlannedAt(d, files, i);
      if files[i].dst.parent != d {
        var j :| 0 <= j < i && IsDirAt(files, j, files[i].dst.parent);
        assert IsDirAt(front, j, front[i].dst.parent);
      }
    }
    assert forall f | f in front :: exists i :: 0 <= i < n && front[i] == f;
  }

  /** Between the directory and a planned path there are only planned directories. */
  lemma {:induction false} DirsBetween(d: Path, files: seq<CopiedFile>, i: nat, q: Path)
    requires IsPlan(d, files) && i < |files| && Below(d, q) && Below(q, files[i].dst)
    ensures exists j :: 0 <= j < i && IsDirAt(files, j, q)
    decreases i
  {
    var p := files[i].dst;
    assert PlannedAt(d, files, i);
    if p.parent == d {
      BelowIsStrict(d, q);
    } else {
      var j :| 0 <= j < i && IsDirAt(files, j, p.parent);
      if q != p.parent {
        DirsBetween(d, files, j, q);
        var m :| 0 <= m < j && IsDirAt(files, m, q);
        assert 0 <= m < i && IsDirAt(files, m, q);
      }
    }
  }

  /** No planned path is covered by a planned file. */
  lemma NotCovered(d: Path, files: seq<CopiedFile>, i: nat)
    requires IsPlan(d, files) && i < |files|
    ensures !Covered(files, files[i].dst)
  {
    forall f | f in files && !f.hdr.IsDir() ensures !Below(f.dst, files[i].dst) {
      var m :| 0 <= m < |files| && files[m] == f;
      assert PlannedAt(d, files, m);
      if Below(f.dst, files[i].dst) { DirsBetween(d, files, i, f.dst); }
    }
  }

  lemma ListedAt(files: seq<CopiedFile>, i: nat)
    requires i < |files|
    ensures FileAt(files, files[i].dst).Some?
  {
    assert files[i] in files;
  }

  /** In a plan a path has one file. */
  lemma FileAtIs(d: Path, files: seq<CopiedFile>, i: nat)
    requires IsPlan(d, files) && i < |files|
    ensures FileAt(files, files[i].dst) == Some(files[i])
  {
    ListedAt(files, i);
    var f := FileAt(files, files[i].dst).value;
    var j :| 0 <= j < |files| && files[j] == f;
  }

  /** Everything above the last file is a directory once the others are laid. */
  lemma DirsLaid(v: View, d: Path, files: seq<CopiedFile>)
    requires Shaped(v) && d in v && v[d].hdr.IsDir() && IsPlan(d, files) && files != []
    ensures DirsAbove(Laid(v, files[..|files| - 1]), files[|files| - 1].dst)
  {
    var n := |files| - 1;
    var front, p := files[..n], files[n].dst;
    PlanFront(d, files);
    forall q: Path | q.Sub? && Below(q, p)
      ensures q in Laid(v, front) && Laid(v, front)[q].hdr.IsDir()
    {
      if Below(d, q) {
        DirsBetween(d, files, n, q);
        var j :| 0 <= j < n && IsDirAt(files, j, q);
        assert front[j] == files[j] && PlannedAt(d, files, j);
        FileAtIs(d, front, j);
        LaidDir(v, front, files[j]);
      } else {
        AboveDir(v, d, files, n, q);
        NotPlanned(d, front, q);
      }
    }
  }

  /** A copied directory is a directory, new or not. */
  lemma LaidDir(v: View, files: seq<CopiedFile>, f: CopiedFile)
    requires FileAt(files, f.dst) == Some(f) && f.hdr.name != ""
    ensures f.dst in Laid(v, files) && Laid(v, files)[f.dst] == LaidFile(v, f)
    ensures LaidFile(v, f).hdr.IsDir() <==> f.hdr.IsDir()
  {
    if f.dst in v { SimilarIsAnEquivalence(f.hdr, v[f.dst].hdr, f.hdr, false); }
  }

  /** What is above a planned path but not below `d` is `d` or above it. */
  lemma AboveDir(v: View, d: Path, files: seq<CopiedFile>, i: nat, q: Path)
    requires Shaped(v) && d in v && v[d].hdr.IsDir() && IsPlan(d, files) && i < |files|
    requires Below(q, files[i].dst) && !Below(d, q)
    ensures Within(q, d) && q in v && v[q].hdr.IsDir()
  {
    assert PlannedAt(d, files, i);
    WithinLinear(q, d, files[i].dst.parent);
    WithinCases(d, q);
    WithinCases(q, d);
    if Below(q, d) { AncestorsAreDirs(v, q, d); }
  }

  /** What is not below `d` is not touched by a plan for it. */
  lemma NotPlanned(d: Path, files: seq<CopiedFile>, q: Path)
    requires IsPlan(d, files) && !Below(d, q)
    ensures FileAt(files, q).None? && !Covered(files, q)
  {
    forall f | f in files ensures f.dst != q && !Below(f.dst, q) {
      var i :| 0 <= i < |files| && files[i] == f;
      assert PlannedAt(d, files, i);
      if Below(f.dst, q) {
        WithinCases(d, f.dst);
        WithinTransitive(d, f.dst, q.parent);
      }
    }
  }

  /** The last file of a plan finds what the old tree had at its place. */
  lemma LastFinds(v: View, d: Path, files: seq<CopiedFile>)
    requires IsPlan(d, files) && files != []
    ensures var w, p := Laid(v, files[..|files| - 1]), files[|files| - 1].dst;
            (p in w <==> p in v) && (p in v ==> w[p] == v[p])
  {
    PlanFront(d, files);
    var n := |files| - 1;
    NotCovered(d, files, n);
    var front := files[..n];
    assert forall f | f in front :: f in files;
  }

  /** The last file of a plan is laid where it was not similar already. */
  lemma LastLaid(v: View, d: Path, files: seq<CopiedFile>)
    requires Shaped(v) && IsPlan(d, files) && files != []
    ensures var w, last := Laid(v, files[..|files| - 1]), files[|files| - 1];
            && last.dst in Laid(v, files) && last.dst.Sub?
            && (Updates(w, last) ==> Laid(v, files)[last.dst] == ContentFile(last.src, last.dst, last.hdr))
            && (!Updates(w, last) ==> last.dst in w && Laid(v, files)[last.dst] == w[last.dst])
            && (!Updates(w, last) && !last.hdr.IsDir() ==> last.dst in v && !v[last.dst].hdr.IsDir())
  {
    LastFinds(v, d, files);
    FileAtIs(d, files, |files| - 1);
    var last := files[|files| - 1];
    assert PlannedAt(d, files, |files| - 1);
    LaidDir(v, files, last);
    hide Laid;
  }

  lemma LaidStep(v: View, d: Path, files: seq<CopiedFile>)
    requires Shaped(v) && IsPlan(d, files) && files != []
    ensures var w, last := Laid(v, files[..|files| - 1]), files[|files| - 1];
            Laid(v, files) == if Updates(w, last) then
                (if last.hdr.IsDir() then w else EraseBelow(w, last.dst))
                    [last.dst := ContentFile(last.src, last.dst, last.hdr)]
              else w
  {
    hide Laid, IsPlan, FileAt, Covered, Updates, Shaped;
    var w, w', last := Laid(v, files[..|files| - 1]), Laid(v, files), files[|files| - 1];
    LastLaid(v, d, files);
    var r := if Updates(w, last) then
        (if last.hdr.IsDir() then w else EraseBelow(w, last.dst))[last.dst := ContentFile(last.src, last.dst, last.hdr)]
      else w;
    forall p
      ensures p in w' <==> p in r
      ensures p in r ==> w'[p] == r[p]
    {
      if p != last.dst {
        OtherLaid(v, d, files, p);
        if p in w && !Updates(w, last) && !last.hdr.IsDir() { OldBelow(v, d, files, p); }
      }
    }
    assert w' == r;
  }

  /** Nothing was below a file that stays. */
  lemma OldBelow(v: View, d: Path, files: seq<CopiedFile>, p: Path)
    requires Shaped(v) && IsPlan(d, files) && files != [] && p in Laid(v, files[..|files| - 1])
    requires var last := files[|files| - 1]; !last.hdr.IsDir() && last.dst in v && !v[last.dst].hdr.IsDir()
    ensures !Below(files[|files| - 1].dst, p)
  {
    var n := |files| - 1;
    var front, last := files[..n], files[n];
    assert PlannedAt(d, files, n);
    if Below(last.dst, p) {
      if FileAt(front, p).Some? {
        var i :| 0 <= i < n && front[i].dst == p;
        DirsBetween(d, files, i, last.dst);
      } else {
        AncestorsAreDirs(v, last.dst, p);
      }
    }
  }

  lemma OtherLaid(v: View, d: Path, files: seq<CopiedFile>, p: Path)
    requires IsPlan(d, files) && files != [] && p != files[|files| - 1].dst
    ensures var front, last := files[..|files| - 1], files[|files| - 1];
            var w := Laid(v, front);
            && (p in Laid(v, files) <==> p in w && (!last.hdr.IsDir() ==> !Below(last.dst, p)))
            && (p in Laid(v, files) ==> Laid(v, files)[p] == w[p])
  {
    var n := |files| - 1;
    var front, last := files[..n], files[n];
    assert PlannedAt(d, files, n);
    assert files == front + [last];
    if FileAt(front, p).Some? {
      var i :| 0 <= i < n && front[i].dst == p;
      if Below(last.dst, p) {
        DirsBetween(d, files, i, last.dst);
      }
    }
  }
}
