/** Clean absolute paths below a root, as the tree code walks them component by
    component, and the order in which a layer's entries are written. */
module Paths {

  /** "/" is Root; "/a/b" is Sub(Sub(Root, "a"), "b"). */
  datatype Path = Root | Sub(parent: Path, name: string)

  /** `a` is `p` itself or one of its ancestors. */
  predicate Within(a: Path, p: Path)
    decreases p
  {
    a == p || (p.Sub? && Within(a, p.parent))
  }

  /** `a` is a strict ancestor of `p`. */
  predicate Below(a: Path, p: Path) {
    p.Sub? && Within(a, p.parent)
  }

  function Depth(p: Path): nat {
    if p.Root? then 0 else Depth(p.parent) + 1
  }

  lemma {:induction false} WithinDepth(a: Path, p: Path)
    requires Within(a, p)
    ensures Depth(a) <= Depth(p)
    ensures Depth(a) == Depth(p) ==> a == p
    decreases p
  {
    if a != p { WithinDepth(a, p.parent); }
  }

  lemma {:induction false} WithinTransitive(a: Path, b: Path, c: Path)
    requires Within(a, b) && Within(b, c)
    ensures Within(a, c)
    decreases c
  {
    if b != c { WithinTransitive(a, b, c.parent); }
  }

  /** The ancestors of a path form a chain. */
  lemma {:induction false} WithinLinear(a: Path, b: Path, c: Path)
    requires Within(a, c) && Within(b, c)
    ensures Within(a, b) || Within(b, a)
    decreases c
  {
    if a != c && b != c { WithinLinear(a, b, c.parent); }
  }

  lemma {:induction false} RootWithin(p: Path)
    ensures Within(Root, p)
  {
    if p.Sub? { RootWithin(p.parent); }
  }

  lemma BelowIsStrict(a: Path, p: Path)
    requires Below(a, p)
    ensures a != p && Within(a, p) && !Within(p, a)
  {
    WithinDepth(a, p.parent);
    if Within(p, a) { WithinDepth(p, a); }
  }

  /** Within is Below or equality; a path is never below itself. */
  lemma WithinCases(a: Path, p: Path)
    ensures Within(a, p) <==> (a == p || Below(a, p))
    ensures !Below(p, p)
  {
    if Below(p, p) { BelowIsStrict(p, p); }
  }

  lemma ChildAboveIsBelow(p: Path, c: Path, q: Path)
    requires c.Sub? && c.parent == p && Within(c, q)
    ensures Below(p, q)
  {
    if c != q { WithinTransitive(p, c, q.parent); }
  }

  /** The child of `p` on the way to `q`. */
  ghost function ChildTowards(p: Path, q: Path): (c: Path)
    requires Below(p, q)
    ensures c.Sub? && c.parent == p && Within(c, q)
    decreases q
  {
    if q.parent == p then q
    else
      assert Within(p, q.parent);
      ChildTowards(p, q.parent)
  }

  lemma {:induction false} OneChildTowards(p: Path, c: Path, q: Path)
    requires c.Sub? && c.parent == p && Within(c, q)
    ensures Below(p, q) && ChildTowards(p, q) == c
    decreases q
  {
    ChildAboveIsBelow(p, c, q);
    if c != q {
      OneChildTowards(p, c, q.parent);
      assert Below(p, q.parent);
      BelowIsStrict(p, q.parent);
    }
  }

  // ----- component sequences -----

  function Parts(p: Path): (parts: seq<string>)
    ensures |parts| == Depth(p)
  {
    if p.Root? then [] else Parts(p.parent) + [p.name]
  }

  function FromParts(parts: seq<string>): (p: Path)
    ensures Depth(p) == |parts|
  {
    if parts == [] then Root else Sub(FromParts(parts[..|parts| - 1]), parts[|parts| - 1])
  }

  lemma {:induction false} PartsRoundTrip(p: Path)
    ensures FromParts(Parts(p)) == p
  {
    if p.Sub? {
      PartsRoundTrip(p.parent);
      assert Parts(p)[..|Parts(p)| - 1] == Parts(p.parent);
    }
  }

  lemma {:induction false} FromPartsRoundTrip(parts: seq<string>)
    ensures Parts(FromParts(parts)) == parts
  {
    if parts != [] {
      FromPartsRoundTrip(parts[..|parts| - 1]);
      assert parts == parts[..|parts| - 1] + [parts[|parts| - 1]];
    }
  }

  /** The path of the first `i` components. */
  function Prefix(parts: seq<string>, i: nat): Path
    requires i <= |parts|
  {
    FromParts(parts[..i])
  }

  lemma PrefixStep(parts: seq<string>, i: nat)
    requires i < |parts|
    ensures Prefix(parts, i + 1) == Sub(Prefix(parts, i), parts[i])
  {
    assert parts[..i + 1][..i] == parts[..i];
  }

  /** Walking the components of a path visits exactly its ancestors. */
  lemma {:induction false} PrefixesAreAncestors(p: Path, i: nat)
    requires i <= Depth(p)
    ensures Within(Prefix(Parts(p), i), p)
    ensures i == Depth(p) ==> Prefix(Parts(p), i) == p
    decreases p
  {
    PartsRoundTrip(p);
    if i == Depth(p) {
      assert Parts(p)[..i] == Parts(p);
    } else {
      PrefixesAreAncestors(p.parent, i);
      assert Parts(p)[..i] == Parts(p.parent)[..i];
    }
  }

  lemma {:induction false} AncestorIsPrefix(a: Path, p: Path)
    requires Within(a, p)
    ensures Depth(a) <= Depth(p) && Prefix(Parts(p), Depth(a)) == a
    decreases p
  {
    WithinDepth(a, p);
    if a == p {
      PrefixesAreAncestors(p, Depth(p));
    } else {
      AncestorIsPrefix(a, p.parent);
      WithinDepth(a, p.parent);
      assert Parts(p)[..Depth(a)] == Parts(p.parent)[..Depth(a)];
    }
  }

  // ----- rendering and order -----

  function Render(p: Path): (s: string)
    ensures |s| > 0
  {
    match p
    case Root => "/"
    case Sub(Root, n) => "/" + n
    case Sub(q, n) => Render(q) + "/" + n
  }

  /** The byte-wise order of sort.Strings. */
  predicate Less(a: string, b: string) {
    if |b| == 0 then false
    else if |a| == 0 then true
    else a[0] < b[0] || (a[0] == b[0] && Less(a[1..], b[1..]))
  }

  lemma {:induction false} LessPrefix(a: string, b: string)
    requires |b| > 0
    ensures Less(a, a + b)
  {
    if a != [] {
      LessPrefix(a[1..], b);
      assert (a + b)[1..] == a[1..] + b;
    }
  }

  lemma {:induction false} LessTotal(a: string, b: string)
    ensures a == b || Less(a, b) || Less(b, a)
  {
    if a != [] && b != [] {
      LessTotal(a[1..], b[1..]);
      if a[0] == b[0] && a[1..] == b[1..] {
        assert a == [a[0]] + a[1..] && b == [b[0]] + b[1..];
      }
    }
  }

  lemma {:induction false} LessTransitive(a: string, b: string, c: string)
    requires Less(a, b) && Less(b, c)
    ensures Less(a, c)
  {
    if a != [] && b != [] && a[0] == b[0] == c[0] {
      LessTransitive(a[1..], b[1..], c[1..]);
    }
  }

  lemma {:induction false} LessIrreflexive(a: string)
    ensures !Less(a, a)
  {
    if a != [] { LessIrreflexive(a[1..]); }
  }

  /** In sorted order every directory comes before what it contains. */
  lemma {:induction false} AncestorsSortFirst(a: Path, p: Path)
    requires a.Sub? && Below(a, p)
    ensures Less(Render(a), Render(p))
    decreases p
  {
    assert p.parent.Sub?;
    assert Render(p) == Render(p.parent) + ("/" + p.name);
    LessPrefix(Render(p.parent), "/" + p.name);
    if a != p.parent {
      AncestorsSortFirst(a, p.parent);
      LessTransitive(Render(a), Render(p.parent), Render(p));
    }
  }
}
