/** File systems as trees of paths with what the header comparison sees: on them
    the layer of a scan turns the old tree into exactly the new one. */
module LookTrees {
  import opened Wrappers
  import opened Paths
  import opened TarHeaders
  import opened Layers
  import opened ScanTheory

  // ----- what the comparison sees of a header -----

  datatype Look =
    | RegularLook(uid: int, gid: int, mode: int, size: int, seconds: int)
    | HardLinkLook(uid: int, gid: int, mode: int, linkname: string, seconds: int)
    | SymlinkLook(linkname: string)
    | DirLook(uid: int, gid: int, mode: int, seconds: int)

  function LookOf(h: Header): Look
    requires h.Supported()
  {
    var seconds := h.modTime / SECOND;
    match h.typeflag
    case TypeSymlink => SymlinkLook(h.linkname)
    case TypeLink => HardLinkLook(h.uid, h.gid, h.mode, h.linkname, seconds)
    case TypeDir => DirLook(h.uid, h.gid, h.mode, seconds)
    case _ => RegularLook(h.uid, h.gid, h.mode, h.size, seconds)
  }

  /** Similar headers look the same, and only they do. */
  lemma SimilarIsSameLook(h: Header, nh: Header)
    requires h.Supported() && nh.Supported() && h.name != ""
    ensures Similar(h, nh, false) <==> LookOf(h) == LookOf(nh)
  {
  }

  /** With times ignored, similar headers look the same at one and the same time,
      and only they do. */
  lemma SimilarButForTime(h: Header, nh: Header)
    requires h.Supported() && nh.Supported() && h.name != ""
    ensures Similar(h, nh, true) <==> LookOf(h.(modTime := 0)) == LookOf(nh.(modTime := 0))
  {
    IgnoringTime(h, nh, 0);
    SimilarIsSameLook(h.(modTime := 0), nh.(modTime := 0));
  }

  function HeaderOf(p: Path, l: Look): Header {
    match l
    case SymlinkLook(link) => Header(Render(p), TypeSymlink, link, 0, 0, 0, 0, 0)
    case HardLinkLook(uid, gid, mode, link, sec) => Header(Render(p), TypeLink, link, uid, gid, 0, mode, sec * SECOND)
    case DirLook(uid, gid, mode, sec) => Header(Render(p), TypeDir, "", uid, gid, 0, mode, sec * SECOND)
    case RegularLook(uid, gid, mode, size, sec) => Header(Render(p), TypeReg, "", uid, gid, size, mode, sec * SECOND)
  }

  lemma HeaderLooks(p: Path, l: Look)
    ensures var h := HeaderOf(p, l);
            h.Supported() && h.name != "" && LookOf(h) == l && (h.IsDir() <==> l.DirLook?)
  {
  }

  // ----- trees -----

  /** Everything below the root; what is in the way to a path is a directory. */
  ghost predicate IsLookTree(t: map<Path, Look>) {
    && (forall p | p in t :: p.Sub? && PlainName(p))
    && (forall p, c | Sub(p, c) in t && p.Sub? :: p in t && t[p].DirLook?)
  }

  type Tree = t: map<Path, Look> | IsLookTree(t) ghost witness map[]

  function RootHeader(): Header {
    Header("", TypeDir, "", 0, 0, 0, 0, 0)
  }

  /** The tree as a merged view, and as a disk. */
  ghost function ViewOf(t: Tree): View {
    map p | p in t.Keys + {Root} :: ContentFile(p, p, if p.Root? then RootHeader() else HeaderOf(p, t[p]))
  }

  ghost function DiskOf(t: Tree): Disk {
    map p | p in t.Keys + {Root} :: if p.Root? then RootHeader() else HeaderOf(p, t[p])
  }

  ghost function LooksOf(v: View): map<Path, Look> {
    map p | p in v && p.Sub? && v[p].hdr.Supported() :: LookOf(v[p].hdr)
  }

  lemma TreesAreScannable(t: Tree)
    ensures Scannable(ViewOf(t)) && IsDisk(DiskOf(t))
  {
    forall p | p in t ensures HeaderOf(p, t[p]).Supported() && HeaderOf(p, t[p]).name != ""
                              && (HeaderOf(p, t[p]).IsDir() <==> t[p].DirLook?)
    {
      HeaderLooks(p, t[p]);
    }
    hide HeaderOf;
  }

  // ----- scanning and applying -----

  ghost function ScanTree(a: Tree, b: Tree): Layer {
    TreesAreScannable(a);
    ScanLayer(ViewOf(a), DiskOf(b))
  }

  /** A layer that does not leave a tree is refused. */
  ghost function ApplyTree(l: Layer, t: Tree): Tree {
    var m := LooksOf(Overlay(ViewOf(t), l));
    if IsLookTree(m) then m else t
  }

  /** The diff law, exactly: the layer of a scan turns the old tree into the new one. */
  lemma ScanLayerTurns(a: Tree, b: Tree)
    ensures ApplyTree(ScanTree(a, b), a) == b
  {
    hide *;
    TreesAreScannable(a);
    TreesAreScannable(b);
    ScanIs(a, b);
    ScanLayerIsTheDiff(ViewOf(a), DiskOf(b));
    MergedIsNew(a, b);
    AppliedIs(ScanTree(a, b), a, b);
  }

  lemma ScanIs(a: Tree, b: Tree)
    ensures Root in ViewOf(a) && ScanTree(a, b) == ScanLayer(ViewOf(a), DiskOf(b))
  {
  }

  lemma AppliedIs(l: Layer, a: Tree, b: Tree)
    requires LooksOf(Overlay(ViewOf(a), l)) == b
    ensures ApplyTree(l, a) == b
  {
    hide LooksOf, Overlay, ViewOf;
  }

  lemma MergedIsNew(a: Tree, b: Tree)
    requires Root in ViewOf(a)
    ensures LooksOf(Merged(ViewOf(a), DiskOf(b))) == b
  {
    var m := Merged(ViewOf(a), DiskOf(b));
    forall p: Path | p in b
      ensures p in m && m[p].hdr.Supported() && LookOf(m[p].hdr) == b[p]
    {
      MergedLooks(a, b, p);
    }
    hide LookOf, MergedFile;
    forall p ensures p in LooksOf(m) <==> p in b {}
  }

  lemma MergedLooks(a: Tree, b: Tree, p: Path)
    requires p in b
    ensures Root in ViewOf(a) && p in DiskOf(b)
    ensures var h := MergedFile(ViewOf(a), DiskOf(b), p).hdr; h.Supported() && LookOf(h) == b[p]
  {
    HeaderLooks(p, b[p]);
    if p in a {
      HeaderLooks(p, a[p]);
      SimilarIsSameLook(HeaderOf(p, a[p]), HeaderOf(p, b[p]));
    }
  }
}
