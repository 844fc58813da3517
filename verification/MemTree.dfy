/** The mutable node graph behind the merged view (lib/snapshot/mem_fs.go) and
    the in-place updates a layer entry makes to it. */
module MemTree {
  import opened Wrappers
  import opened Paths
  import opened TarHeaders
  import opened Layers
  import opened ScanTheory

  class MemFSNode {
    const file: ContentFile
    var children: map<string, MemFSNode>

    constructor (file: ContentFile)
      ensures this.file == file && children == map[]
    {
      this.file := file;
      children := map[];
    }
  }

  type Nodes = map<Path, MemFSNode>
  type Kids = map<Path, map<string, MemFSNode>>

  /** `at` and `kids` describe a tree: one node for each path, found by
      following the children from the root. */
  ghost predicate Graph(at: Nodes, kids: Kids) {
    && kids.Keys == at.Keys
    && Root in at
    && (forall p, c | Sub(p, c) in at :: p in at)
    && (forall p, c | p in at :: c in kids[p] <==> Sub(p, c) in at)
    && (forall p, c | p in at && c in kids[p] :: at[Sub(p, c)] == kids[p][c])
  }

  /** The paths an entry at `dst` leaves in place. */
  ghost predicate Stays(dst: Path, keepBelow: bool, q: Path) {
    keepBelow || !Below(dst, q)
  }

  ghost function NodesAfter(at: Nodes, dst: Path, keepBelow: bool, n: MemFSNode): Nodes {
    (map q | q in at && Stays(dst, keepBelow, q) :: at[q])[dst := n]
  }

  ghost function NewKids(kids: Kids, dst: Path, keepBelow: bool): map<string, MemFSNode> {
    if keepBelow && dst in kids then kids[dst] else map[]
  }

  ghost function KidsAfter(kids: Kids, dst: Path, keepBelow: bool, n: MemFSNode): Kids
    requires dst.Sub? && dst.parent in kids
  {
    (map q | q in kids && Stays(dst, keepBelow, q) :: kids[q])
      [dst := NewKids(kids, dst, keepBelow)]
      [dst.parent := kids[dst.parent][dst.name := n]]
  }

  /** Replacing the node of `dst` by a new one gives a tree again, although the
      new node shares its children with the one it replaces. */
  lemma AttachKeepsGraph(at: Nodes, kids: Kids, dst: Path, keepBelow: bool, n: MemFSNode)
    requires Graph(at, kids)
    requires dst.Sub? && dst.parent in at
    ensures Graph(NodesAfter(at, dst, keepBelow, n), KidsAfter(kids, dst, keepBelow, n))
  {
    var at', kids' := NodesAfter(at, dst, keepBelow, n), KidsAfter(kids, dst, keepBelow, n);
    BelowIsStrict(dst.parent, dst);
    WithinCases(dst, dst.parent);
    assert dst == Sub(dst.parent, dst.name);
    assert kids'.Keys == at'.Keys;
    forall p, c
      ensures Sub(p, c) in at' ==> p in at'
      ensures p in at' ==> (c in kids'[p] <==> Sub(p, c) in at')
      ensures p in at' && c in kids'[p] ==> at'[Sub(p, c)] == kids'[p][c]
    {
      assert Below(dst, Sub(p, c)) <==> Within(dst, p);
      WithinCases(dst, p);
      if p != dst && p != dst.parent { assert Sub(p, c) != dst; }
    }
  }

  /** The files of the nodes; a node's file never changes. */
  ghost function FilesOf(at: Nodes): View {
    map p | p in at :: at[p].file
  }

  lemma FilesAfter(at: Nodes, f: ContentFile, n: MemFSNode)
    requires f.dst.Sub? && f.dst.parent in at && n.file == f
    ensures PutContent(FilesOf(at), f) == Ok(FilesOf(NodesAfter(at, f.dst, f.hdr.IsDir(), n)))
  {
    var v := FilesOf(at);
    var w := FilesOf(NodesAfter(at, f.dst, f.hdr.IsDir(), n));
    var x := PutContent(v, f).value;
    assert w.Keys == x.Keys;
    assert forall p | p in w :: w[p] == x[p];
    assert w == x;
  }

  ghost function NodesErased(at: Nodes, dst: Path): Nodes {
    map q | q in at && !Within(dst, q) :: at[q]
  }

  ghost function KidsErased(kids: Kids, dst: Path): Kids
    requires dst.Sub? && dst.parent in kids
  {
    (map q | q in kids && !Within(dst, q) :: kids[q])
      [dst.parent := kids[dst.parent] - {dst.name}]
  }

  lemma FilesOfErased(at: Nodes, t: Path)
    ensures FilesOf(NodesErased(at, t)) == Erase(FilesOf(at), t)
  {
  }

  lemma EraseKeepsGraph(at: Nodes, kids: Kids, dst: Path)
    requires Graph(at, kids)
    requires dst.Sub? && dst.parent in at
    ensures Graph(NodesErased(at, dst), KidsErased(kids, dst))
  {
    var at', kids' := NodesErased(at, dst), KidsErased(kids, dst);
    BelowIsStrict(dst.parent, dst);
    WithinCases(dst, dst.parent);
    assert dst == Sub(dst.parent, dst.name);
    assert kids'.Keys == at'.Keys;
    forall p, c
      ensures Sub(p, c) in at' ==> p in at'
      ensures p in at' ==> (c in kids'[p] <==> Sub(p, c) in at')
      ensures p in at' && c in kids'[p] ==> at'[Sub(p, c)] == kids'[p][c]
    {
      assert Within(dst, Sub(p, c)) <==> (Sub(p, c) == dst || Within(dst, p));
    }
  }

  /** Hang a new node for `f` below `node`, in the place of any node that has
      its name; a directory takes over the children of the node it replaces. */
  method Hang(node: MemFSNode, f: ContentFile) returns (n': MemFSNode)
    requires f.dst.Sub?
    requires f.dst.name in node.children ==> node.children[f.dst.name] != node
    modifies node`children
    ensures fresh(n') && n'.file == f
    ensures node.children == old(node.children)[f.dst.name := n']
    ensures n'.children == if f.hdr.IsDir() && f.dst.name in old(node.children)
                           then old(node.children[f.dst.name].children) else map[]
  {
    var part := f.dst.name;
    n' := new MemFSNode(f);
    if part in node.children {
      var n := node.children[part];
      node.children := node.children[part := n'];
      if f.hdr.IsDir() {
        n'.children := n.children;
      }
    } else {
      node.children := node.children[part := n'];
    }
  }

  /** The in-memory tree. Nodes are replaced, never edited, except for their
      children; a replaced directory shares its children with its replacement,
      and callers may still hold it. `at` says which node each path has. */
  class MemFS {
    const tree: MemFSNode
    ghost var at: Nodes

    ghost function Kids(): Kids
      reads this, at.Values
    {
      map p | p in at :: at[p].children
    }

    ghost predicate Valid()
      reads this, at.Values
    {
      && Graph(at, Kids()) && at[Root] == tree
      && (forall p | p in at :: at[p].file.dst == p && (p.Sub? ==> !IsWhiteoutName(p.name)))
    }

    /** The view is the path map of the nodes' files. */
    ghost function View(): View
      reads this
    {
      FilesOf(at)
    }

    /** The node of `f.dst` is new and everything else is as `at0` and `kids0` say. */
    ghost predicate Replaced(at0: Nodes, kids0: Kids, f: ContentFile)
      reads this, at.Values
    {
      && f.dst.Sub? && f.dst in at && f.dst.parent in kids0 && at[f.dst].file == f
      && at == NodesAfter(at0, f.dst, f.hdr.IsDir(), at[f.dst])
      && Kids() == KidsAfter(kids0, f.dst, f.hdr.IsDir(), at[f.dst])
    }

    /** The one node whose children an update of `p` edits. */
    ghost function ParentNode(p: Path): set<MemFSNode>
      reads this
    {
      if p.Sub? && p.parent in at then {at[p.parent]} else {}
    }

    constructor (rootFile: ContentFile)
      requires rootFile.dst.Root?
      ensures Valid() && fresh(at.Values)
      ensures View() == map[Root := rootFile]
    {
      tree := new MemFSNode(rootFile);
      new;
      at := map[Root := tree];
    }

    /** Looking a name up among the children of a path's node. */
    lemma Child(p: Path, c: string)
      requires Valid() && p in at
      ensures c in at[p].children <==> Sub(p, c) in at
      ensures c in at[p].children ==> at[p].children[c] == at[Sub(p, c)]
    {
      assert at[p].children == Kids()[p];
    }

    lemma NodeAt(p: Path)
      requires Valid() && p in at
      ensures at[p].file.dst == p && Kids().Keys == at.Keys && Kids()[p] == at[p].children
    {
    }

    /** No node stands at two paths. */
    lemma OnlyNodeOf(q: Path)
      requires Valid() && q in at
      ensures forall p | p in at && p != q :: at[p] != at[q]
    {
      assert forall p | p in at :: at[p].file.dst == p;
    }

    lemma ViewIsTree()
      requires Valid()
      ensures IsTree(View()) && KeyedByDst(View())
    {
      forall p | p in View() && p.Sub? ensures p.parent in View() {
        assert p == Sub(p.parent, p.name);
      }
    }

    /** Nothing exists below a missing path. */
    lemma MissingAbove(a: Path, p: Path)
      requires Valid() && a !in at && Within(a, p)
      ensures p !in at
    {
      ViewIsTree();
      if p in at { AncestorsExist(View(), a, p); }
    }

    /** The walk shared by the updates and the lookups: follow the components
        of a path from the root. */
    method Descend(p: Path) returns (node: MemFSNode?)
      requires Valid()
      ensures node == null <==> p !in at
      ensures node != null ==> node == at[p]
    {
      var parts := Parts(p);
      node := tree;
      var i := 0;
      while i < |parts|
        invariant i <= |parts|
        invariant Prefix(parts, i) in at && node == at[Prefix(parts, i)]
      {
        PrefixStep(parts, i);
        PrefixesAreAncestors(p, i + 1);
        Child(Prefix(parts, i), parts[i]);
        if parts[i] in node.children {
          node := node.children[parts[i]];
        } else {
          MissingAbove(Prefix(parts, i + 1), p);
          return null;
        }
        i := i + 1;
      }
      PrefixesAreAncestors(p, i);
    }

    /** The last step of a content update: a new node below `node`. */
    method Attach(node: MemFSNode, f: ContentFile) returns (n': MemFSNode)
      requires f.dst.Sub? && f.dst.parent in at && at[f.dst.parent] == node
      requires f.dst.name in node.children <==> f.dst in at
      requires f.dst in at ==> at[f.dst] == node.children[f.dst.name]
      requires forall p | p in at && p != f.dst.parent :: at[p] != node
      modifies this`at, node`children
      ensures fresh(n') && n'.file == f
      ensures at == NodesAfter(old(at), f.dst, f.hdr.IsDir(), n')
      ensures Kids() == KidsAfter(old(Kids()), f.dst, f.hdr.IsDir(), n')
    {
      BelowIsStrict(f.dst.parent, f.dst);
      WithinCases(f.dst, f.dst.parent);
      hide Below, Within;
      ghost var at0, kids := at, Kids();
      n' := Hang(node, f);
      at := NodesAfter(at0, f.dst, f.hdr.IsDir(), n');
      ghost var kids' := KidsAfter(kids, f.dst, f.hdr.IsDir(), n');
      assert forall p | p in at0 && p != f.dst.parent :: at0[p].children == kids[p];
      AttachedKids(kids, kids', f, node, n');
    }

    lemma AttachedKids(kids: Kids, kids': Kids, f: ContentFile, node: MemFSNode, n': MemFSNode)
      requires f.dst.Sub? && f.dst.parent != f.dst && f.dst.parent in at && at[f.dst.parent] == node && f.dst in at
               && at[f.dst] == n'
      requires f.dst.parent in kids && kids' == KidsAfter(kids, f.dst, f.hdr.IsDir(), n')
      requires kids'.Keys == at.Keys
      requires node.children == kids'[f.dst.parent] && n'.children == kids'[f.dst]
      requires forall p | p in at && p != f.dst.parent && p != f.dst :: p in kids && at[p].children == kids[p]
      ensures Kids() == kids'
    {
      forall p | p in at ensures at[p].children == kids'[p] {}
    }

    /** What Attach did, in terms of the whole tree. */
    lemma Attached(at0: Nodes, kids0: Kids, f: ContentFile, n': MemFSNode)
      requires Graph(at0, kids0) && at0[Root] == tree
      requires forall p | p in at0 :: at0[p].file.dst == p && (p.Sub? ==> !IsWhiteoutName(p.name))
      requires f.dst.Sub? && f.dst.parent in at0 && !IsWhiteoutName(f.dst.name)
      requires n'.file == f
      requires at == NodesAfter(at0, f.dst, f.hdr.IsDir(), n')
      requires Kids() == KidsAfter(kids0, f.dst, f.hdr.IsDir(), n')
      ensures Valid()
      ensures PutContent(FilesOf(at0), f) == Ok(View())
    {
      AttachKeepsGraph(at0, kids0, f.dst, f.hdr.IsDir(), n');
      FilesAfter(at0, f, n');
    }

    /** Replacing or adding the node of `f.dst`, given the node above it. */
    method Replace(node: MemFSNode, f: ContentFile)
      requires Valid() && f.dst.Sub? && !IsWhiteoutName(f.dst.name)
      requires f.dst.parent in at && at[f.dst.parent] == node
      modifies this`at, node`children
      ensures Valid()
      ensures PutContent(old(View()), f) == Ok(View())
      ensures Replaced(old(at), old(Kids()), f) && fresh(at[f.dst])
    {
      ghost var at0, kids0 := at, Kids();
      Child(f.dst.parent, f.dst.name);
      assert f.dst == Sub(f.dst.parent, f.dst.name);
      OnlyNodeOf(f.dst.parent);
      var n' := Attach(node, f);
      Attached(at0, kids0, f, n');
      assert at[f.dst] == n';
    }

    /** contentMemFile.updateMemFS. */
    method UpdateContent(f: ContentFile) returns (r: Result<(), TreeError>)
      requires Valid()
      requires f.dst.Sub? ==> !IsWhiteoutName(f.dst.name)
      modifies this`at, ParentNode(f.dst)`children
      ensures Valid()
      ensures PutContent(old(View()), f) == if r.Ok? then Ok(View()) else Err(MissingIntermediate)
      ensures r.Err? || f.dst.Root? ==> at == old(at) && Kids() == old(Kids())
      ensures r.Ok? && f.dst.Sub? ==> Replaced(old(at), old(Kids()), f) && fresh(at[f.dst])
    {
      if f.dst.Root? {
        return Ok(());
      }
      var node := Descend(f.dst.parent);
      if node == null {
        return Err(MissingIntermediate);
      }
      Replace(node, f);
      return Ok(());
    }

    lemma FilesErased(at0: Nodes, kids0: Kids, t: Path)
      requires Graph(at0, kids0) && at0[Root] == tree
      requires forall p | p in at0 :: at0[p].file.dst == p && (p.Sub? ==> !IsWhiteoutName(p.name))
      requires t.Sub? && t.parent in at0
      requires at == NodesErased(at0, t) && Kids() == KidsErased(kids0, t)
      ensures Valid()
      ensures Erase(FilesOf(at0), t) == View()
    {
      EraseKeepsGraph(at0, kids0, t);
      FilesOfErased(at0, t);
      assert Root in at && at[Root] == tree by { assert Root in at0; }
      hide Graph, KidsErased, Kids;
    }

    /** Removing the child for `t`, if there is one. */
    method Remove(node: MemFSNode, t: Path)
      requires t.Sub? && t.parent in at && at[t.parent] == node
      requires forall p | p in at && p != t.parent :: at[p] != node
      modifies this`at, node`children
      ensures at == NodesErased(old(at), t)
      ensures Kids() == KidsErased(old(Kids()), t)
    {
      BelowIsStrict(t.parent, t);
      ghost var kids := node.children;
      if t.name in node.children {
        node.children := node.children - {t.name};
      }
      assert node.children == kids - {t.name};
      at := NodesErased(at, t);
    }

    /** whiteoutMemFile.updateMemFS. */
    method UpdateWhiteout(del: Path) returns (r: Result<(), TreeError>)
      requires Valid()
      modifies this`at, ParentNode(Target(del))`children
      ensures Valid()
      ensures PutWhiteout(old(View()), del) == if r.Ok? then Ok(View()) else Err(MissingIntermediate)
      ensures at.Values <= old(at.Values)
      ensures r.Err? ==> at == old(at) && Kids() == old(Kids())
      ensures r.Ok? && Target(del).Sub? ==>
        Target(del).parent in old(at) && at == NodesErased(old(at), Target(del))
            && Kids() == KidsErased(old(Kids()), Target(del))
    {
      var t := Target(del);
      if t.Root? {
        return Ok(());
      }
      var node := Descend(t.parent);
      if node == null {
        return Err(MissingIntermediate);
      }
      ghost var at0, kids0 := at, Kids();
      OnlyNodeOf(t.parent);
      Remove(node, t);
      FilesErased(at0, kids0, t);
      return Ok(());
    }
  }
}
