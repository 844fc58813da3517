/** Removing everything that may be removed (removePathRecursive and
    removeAllChildren in lib/snapshot/utils.go). */
module Removal {
  import opened Paths

  /** The disk: every path, and whether it is a directory. */
  type Files = map<Path, bool>

  ghost predicate IsFileTree(files: Files) {
    forall p, c | Sub(p, c) in files :: p in files && files[p]
  }

  /** Skipped, under a skipped path, or an ancestor of one, below `p`. */
  ghost predicate Kept(files: Files, skip: Path -> bool, p: Path, q: Path) {
    exists s :: s in files && Within(p, s) && skip(s) && (Within(s, q) || Within(q, s))
  }

  /** Skipped, under a skipped path, or an ancestor of one, strictly below the root. */
  ghost predicate Spared(files: Files, skip: Path -> bool, root: Path, q: Path) {
    exists s :: s in files && Below(root, s) && skip(s) && (Within(s, q) || Within(q, s))
  }

  ghost predicate HasSkipped(files: Files, skip: Path -> bool, p: Path) {
    exists s :: s in files && Within(p, s) && skip(s)
  }

  ghost predicate AnySkipped(files: Files, skip: Path -> bool, p: Path, done: set<string>) {
    exists c :: c in done && HasSkipped(files, skip, Sub(p, c))
  }

  /** `now` is `before` without what is removed at and below `p`. */
  ghost predicate Removed(before: Files, skip: Path -> bool, p: Path, now: Files) {
    forall q ::
      if q in before && (Within(p, q) ==> Kept(before, skip, p, q)) then q in now && now[q] == before[q]
      else q !in now
  }

  // ----- children -----

  lemma OneChild(p: Path, c: string, d: string, q: Path)
    requires Within(Sub(p, c), q) && Within(Sub(p, d), q)
    ensures c == d
  {
    WithinLinear(Sub(p, c), Sub(p, d), q);
    WithinDepth(Sub(p, c), Sub(p, c));
    if Within(Sub(p, c), Sub(p, d)) { WithinDepth(Sub(p, c), Sub(p, d)); }
    if Within(Sub(p, d), Sub(p, c)) { WithinDepth(Sub(p, d), Sub(p, c)); }
  }

  lemma ChildIsBelow(p: Path, c: string, q: Path)
    requires Within(Sub(p, c), q)
    ensures Within(p, q) && q != p && !Within(q, p)
  {
    WithinTransitive(p, Sub(p, c), q);
    WithinDepth(Sub(p, c), q);
    if Within(q, p) { WithinDepth(q, p); }
  }

  /** Below a child only what is skipped below that child matters. */
  lemma KeptInChild(files: Files, skip: Path -> bool, p: Path, c: string, q: Path)
    requires Within(Sub(p, c), q) && !skip(p)
    ensures Kept(files, skip, p, q) <==> Kept(files, skip, Sub(p, c), q)
  {
    ChildIsBelow(p, c, q);
    if Kept(files, skip, p, q) {
      var s :| s in files && Within(p, s) && skip(s) && (Within(s, q) || Within(q, s));
      if Within(q, s) {
        WithinTransitive(Sub(p, c), q, s);
      } else {
        WithinLinear(Sub(p, c), s, q);
        if Within(s, Sub(p, c)) {
          WithinCases(s, Sub(p, c));
          if s != Sub(p, c) {
            assert Within(s, p);
            Antisymmetric(s, p);
          }
        }
      }
      assert Within(Sub(p, c), s);
    }
    if Kept(files, skip, Sub(p, c), q) {
      var s :| s in files && Within(Sub(p, c), s) && skip(s) && (Within(s, q) || Within(q, s));
      ChildIsBelow(p, c, s);
    }
  }

  lemma Antisymmetric(a: Path, b: Path)
    requires Within(a, b) && Within(b, a)
    ensures a == b
  {
    WithinDepth(a, b);
    WithinDepth(b, a);
  }

  /** What is left is still a tree. */
  lemma RemovedIsTree(before: Files, skip: Path -> bool, p: Path, now: Files)
    requires IsFileTree(before) && Removed(before, skip, p, now)
    ensures IsFileTree(now)
  {
    forall q, c | Sub(q, c) in now ensures q in now && now[q] {
      assert Sub(q, c) in before && q in before;
      if Within(p, q) {
        WithinTransitive(p, q, Sub(q, c));
        assert Kept(before, skip, p, Sub(q, c));
        var s :| s in before && Within(p, s) && skip(s) && (Within(s, Sub(q, c)) || Within(Sub(q, c), s));
        if Within(Sub(q, c), s) {
          WithinTransitive(q, Sub(q, c), s);
        }
        assert Within(s, q) || Within(q, s);
        assert Kept(before, skip, p, q);
      }
    }
  }

  // ----- one child at a time -----

  /** ioutil.ReadDir: the names in a directory. */
  function Children(files: Files, p: Path): set<string> {
    set q | q in files && q.Sub? && q.parent == p :: q.name
  }

  /** Everything removed below the children in `done`. */
  ghost predicate PartlyRemoved(before: Files, skip: Path -> bool, p: Path, done: set<string>, now: Files) {
    forall q ::
      if q in before && (forall c | c in done && Within(Sub(p, c), q) :: Kept(before, skip, Sub(p, c), q))
      then q in now && now[q] == before[q]
      else q !in now
  }

  /** Removing one more child looks at files nobody has touched yet. */
  lemma RemovesOneMore(before: Files, skip: Path -> bool, p: Path, done: set<string>, c: string, mid: Files, now: Files)
    requires PartlyRemoved(before, skip, p, done, mid) && c !in done
    requires Removed(mid, skip, Sub(p, c), now)
    ensures PartlyRemoved(before, skip, p, done + {c}, now)
  {
    forall q | Within(Sub(p, c), q)
      ensures (q in mid <==> q in before) && (Kept(mid, skip, Sub(p, c), q) <==> Kept(before, skip, Sub(p, c), q))
    {
      UntouchedBelow(before, skip, p, done, c, mid);
    }
  }

  lemma UntouchedBelow(before: Files, skip: Path -> bool, p: Path, done: set<string>, c: string, mid: Files)
    requires PartlyRemoved(before, skip, p, done, mid) && c !in done
    ensures forall q | Within(Sub(p, c), q) :: (q in mid <==> q in before) && (q in mid ==> mid[q] == before[q])
    ensures HasSkipped(mid, skip, Sub(p, c)) <==> HasSkipped(before, skip, Sub(p, c))
  {
    forall q | Within(Sub(p, c), q)
      ensures (q in mid <==> q in before) && (q in mid ==> mid[q] == before[q])
    {
      forall d | d in done && Within(Sub(p, d), q) ensures d == c {
        OneChild(p, c, d, q);
      }
    }
  }

  /** With all children done, only `p` itself is left to decide. */
  lemma AllChildrenDone(before: Files, skip: Path -> bool, p: Path, now: Files)
    requires IsFileTree(before) && PartlyRemoved(before, skip, p, Children(before, p), now) && !skip(p) && p in before
    ensures forall q | q != p :: q in now <==> q in before && (Within(p, q) ==> Kept(before, skip, p, q))
    ensures p in now
    ensures HasSkipped(before, skip, p) ==> Removed(before, skip, p, now)
    ensures !HasSkipped(before, skip, p) ==> forall q | Within(p, q) && q != p :: q !in now
  {
    var all := Children(before, p);
    forall q | q != p
      ensures q in now <==> q in before && (Within(p, q) ==> Kept(before, skip, p, q))
    {
      WithinCases(p, q);
      if Within(p, q) && q in before {
        var c := ChildTowards(p, q).name;
        assert Sub(p, c) == ChildTowards(p, q);
        InTree(before, Sub(p, c), q);
        assert c in all;
        KeptInChild(before, skip, p, c, q);
        forall d | d in all && Within(Sub(p, d), q) ensures d == c { OneChild(p, c, d, q); }
      } else {
        forall c | c in all && Within(Sub(p, c), q) ensures Within(p, q) { ChildIsBelow(p, c, q); }
      }
    }
    forall c | Within(Sub(p, c), p) ensures false { ChildIsBelow(p, c, p); }
    if HasSkipped(before, skip, p) {
      assert Kept(before, skip, p, p);
    }
  }

  lemma {:induction false} InTree(files: Files, a: Path, q: Path)
    requires IsFileTree(files) && q in files && Within(a, q)
    ensures a in files
    decreases q
  {
    if a != q {
      assert q == Sub(q.parent, q.name);
      InTree(files, a, q.parent);
    }
  }

  /** Something is skipped below `p` exactly when it is below one of its children. */
  lemma SkippedBelowChildren(files: Files, skip: Path -> bool, p: Path)
    requires IsFileTree(files) && !skip(p)
    ensures HasSkipped(files, skip, p) <==> AnySkipped(files, skip, p, Children(files, p))
  {
    if HasSkipped(files, skip, p) {
      var s :| s in files && Within(p, s) && skip(s);
      WithinCases(p, s);
      var c := ChildTowards(p, s).name;
      assert Sub(p, c) == ChildTowards(p, s);
      InTree(files, Sub(p, c), s);
      assert HasSkipped(files, skip, Sub(p, c));
      assert c in Children(files, p);
    }
    forall c | c in Children(files, p) && HasSkipped(files, skip, Sub(p, c)) ensures HasSkipped(files, skip, p) {
      var s :| s in files && Within(Sub(p, c), s) && skip(s);
      ChildIsBelow(p, c, s);
    }
  }

  function Subtree(files: Files, p: Path): set<Path> {
    set q | q in files && Within(p, q)
  }

  class DiskTree {
    var files: Files
    const skip: Path -> bool

    constructor (files: Files, skip: Path -> bool)
      ensures this.files == files && this.skip == skip
    {
      this.files, this.skip := files, skip;
    }

    /** Removes what may be removed at and below `p`; true if that was everything. */
    method RemovePathRecursive(p: Path) returns (removed: bool)
      requires IsFileTree(files) && p in files
      modifies this`files
      ensures IsFileTree(files) && Removed(old(files), skip, p, files)
      ensures removed <==> !HasSkipped(old(files), skip, p)
      decreases Subtree(files, p), 1
    {
      if skip(p) {
        RemovesNothing(files, skip, p);
        return false;
      }
      if !files[p] {
        RemovesFile(files, skip, p);
        files := files - {p};
        return true;
      }
      var anyFailed := RemoveChildrenOf(p);
      SkippedBelowChildren(old(files), skip, p);
      AllChildrenDone(old(files), skip, p, files);
      if anyFailed {
        return false;
      }
      RemovesAll(old(files), skip, p, files);
      files := map q | q in files && !Within(p, q) :: files[q];
      RemovedIsTree(old(files), skip, p, files);
      return true;
    }

    /** The loop over the children of a directory. */
    method RemoveChildrenOf(p: Path) returns (anyFailed: bool)
      requires IsFileTree(files) && p in files
      modifies this`files
      ensures IsFileTree(files) && PartlyRemoved(old(files), skip, p, Children(old(files), p), files)
      ensures anyFailed <==> AnySkipped(old(files), skip, p, Children(old(files), p))
      decreases Subtree(files, p), 0
    {
      hide Kept, HasSkipped, IsFileTree, Removed, Subtree, PartlyRemoved, AnySkipped, Children;
      var all := Children(files, p);
      var todo := all;
      anyFailed := false;
      NothingRemoved(files, skip, p);
      assert all - todo == {};
      while todo != {}
        invariant todo <= all
        invariant IsFileTree(files) && PartlyRemoved(old(files), skip, p, all - todo, files)
        invariant anyFailed <==> AnySkipped(old(files), skip, p, all - todo)
        decreases todo
      {
        var c :| c in todo;
        ghost var done, mid := all - todo, files;
        UntouchedBelow(old(files), skip, p, done, c, mid);
        ChildrenAre(old(files), p, c);
        SmallerSubtree(old(files), skip, p, done, c, mid);
        var removed := RemovePathRecursive(Sub(p, c));
        if !removed {
          anyFailed := true;
        }
        RemovesOneMore(old(files), skip, p, done, c, mid, files);
        OneMoreSkipped(old(files), skip, p, done, c);
        todo := todo - {c};
        assert all - todo == done + {c};
      }
      assert all - todo == all;
    }

    /** removeAllChildren: the root itself always stays. */
    method RemoveAllChildren(root: Path)
      requires IsFileTree(files) && root in files
      modifies this`files
      ensures IsFileTree(files)
      ensures forall q :: q in files <==>
                q in old(files) && (Below(root, q) ==> Spared(old(files), skip, root, q))
      ensures forall q | q in files :: files[q] == old(files)[q]
    {
      hide Spared, Children, IsFileTree, Kept;
      var anyFailed := RemoveChildrenOf(root);
      forall q
        ensures q in files <==> q in old(files) && (Below(root, q) ==> Spared(old(files), skip, root, q))
      {
        SurvivesBelow(old(files), skip, root, files, q);
      }
    }
  }

  lemma OneMoreSkipped(files: Files, skip: Path -> bool, p: Path, done: set<string>, c: string)
    ensures AnySkipped(files, skip, p, done + {c}) <==>
            AnySkipped(files, skip, p, done)
            || HasSkipped(files, skip, Sub(p, c))
  {
    if HasSkipped(files, skip, Sub(p, c)) { assert c in done + {c}; }
    if AnySkipped(files, skip, p, done) {
      var d :| d in done && HasSkipped(files, skip, Sub(p, d));
      assert d in done + {c};
    }
  }

  lemma NothingRemoved(files: Files, skip: Path -> bool, p: Path)
    ensures PartlyRemoved(files, skip, p, {}, files) && !AnySkipped(files, skip, p, {})
  {
  }

  lemma ChildrenAre(files: Files, p: Path, c: string)
    ensures c in Children(files, p) <==> Sub(p, c) in files
  {
    var child := Sub(p, c);
    if child in files {
      assert child.name in Children(files, p);
    }
  }

  lemma SmallerSubtree(before: Files, skip: Path -> bool, p: Path, done: set<string>, c: string, mid: Files)
    requires PartlyRemoved(before, skip, p, done, mid) && p in before
    ensures Subtree(mid, Sub(p, c)) < Subtree(before, p)
  {
    forall q | q in Subtree(mid, Sub(p, c)) ensures q in Subtree(before, p) { ChildIsBelow(p, c, q); }
    assert p in Subtree(before, p);
    if Within(Sub(p, c), p) { ChildIsBelow(p, c, p); }
  }

  lemma RemovesNothing(files: Files, skip: Path -> bool, p: Path)
    requires skip(p) && p in files
    ensures Removed(files, skip, p, files) && HasSkipped(files, skip, p)
  {
    assert Within(p, p);
    forall q | Within(p, q) ensures Kept(files, skip, p, q) {}
  }

  lemma RemovesFile(files: Files, skip: Path -> bool, p: Path)
    requires IsFileTree(files) && p in files && !files[p] && !skip(p)
    ensures Removed(files, skip, p, files - {p}) && !HasSkipped(files, skip, p) && IsFileTree(files - {p})
  {
    forall q | q in files && Within(p, q) ensures q == p {
      if q != p {
        WithinCases(p, q);
        var c := ChildTowards(p, q).name;
        assert Sub(p, c) == ChildTowards(p, q);
        InTree(files, Sub(p, c), q);
      }
    }
    assert !Kept(files, skip, p, p);
  }

  lemma RemovesAll(before: Files, skip: Path -> bool, p: Path, mid: Files)
    requires p in before && !HasSkipped(before, skip, p)
    requires forall q | q != p :: q in mid <==> q in before && (Within(p, q) ==> Kept(before, skip, p, q))
    requires forall q | q in mid :: q in before && mid[q] == before[q]
    ensures Removed(before, skip, p, map q | q in mid && !Within(p, q) :: mid[q])
  {
    forall q ensures !Kept(before, skip, p, q) {}
  }

  /** What the removal of all children leaves, said without the children. */
  lemma SurvivesBelow(before: Files, skip: Path -> bool, root: Path, now: Files, q: Path)
    requires IsFileTree(before) && PartlyRemoved(before, skip, root, Children(before, root), now)
    ensures q in now <==>
            q in before && (Below(root, q) ==> Spared(before, skip, root, q))
  {
    var all := Children(before, root);
    if Below(root, q) && q in before {
      var c := ChildTowards(root, q).name;
      assert Sub(root, c) == ChildTowards(root, q);
      InTree(before, Sub(root, c), q);
      ChildrenAre(before, root, c);
      forall d | d in all && Within(Sub(root, d), q) ensures d == c { OneChild(root, c, d, q); }
      OnlyThroughChild(before, skip, root, c, q);
    } else {
      forall c | c in all && Within(Sub(root, c), q) ensures Below(root, q) {
        ChildIsBelow(root, c, q);
        WithinCases(root, q);
      }
    }
  }

  lemma OnlyThroughChild(before: Files, skip: Path -> bool, root: Path, c: string, q: Path)
    requires Within(Sub(root, c), q)
    ensures Kept(before, skip, Sub(root, c), q) <==> Spared(before, skip, root, q)
  {
    var notRoot := (x: Path) => skip(x) && x != root;
    KeptInChild(before, notRoot, root, c, q);
    if Kept(before, skip, Sub(root, c), q) {
      var s :| s in before && Within(Sub(root, c), s) && skip(s) && (Within(s, q) || Within(q, s));
      ChildIsBelow(root, c, s);
      WithinCases(root, s);
    }
    if Spared(before, skip, root, q) {
      var s :| s in before && Below(root, s) && skip(s) && (Within(s, q) || Within(q, s));
      WithinCases(root, s);
      assert notRoot(s) && Kept(before, notRoot, root, q);
      var t :| t in before && Within(Sub(root, c), t) && notRoot(t) && (Within(t, q) || Within(q, t));
      assert skip(t);
    }
  }
}
