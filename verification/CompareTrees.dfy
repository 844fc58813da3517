/** Comparing two merged trees (compareNode in lib/snapshot/mem_fs.go). */
module CompareTrees {
  import opened Wrappers
  import opened TarHeaders

  datatype Node = Node(hdr: Header, children: map<string, Node>)

  /** Component names from the root of the comparison. */
  type Names = seq<string>

  /** The node at the end of a path. */
  function At(n: Node, p: Names): Option<Node> {
    if p == [] then Some(n)
    else if p[0] in n.children then At(n.children[p[0]], p[1..])
    else None
  }

  // ----- what must be reported -----

  predicate Has(n: Node, p: Names) {
    At(n, p).Some?
  }

  /** In both trees, with headers that are not similar. */
  predicate IsDiff(a: Node, b: Node, p: Names, ignoreTime: bool) {
    Has(a, p) && Has(b, p) && !Similar(At(a, p).value.hdr, At(b, p).value.hdr, ignoreTime)
  }

  /** In the first tree only, right below a path of both. */
  predicate IsOnly(a: Node, b: Node, p: Names) {
    p != [] && Has(a, p) && !Has(b, p) && Has(b, p[..|p| - 1])
  }

  /** The four maps that are filled. */
  datatype Kind = Diff1 | Diff2 | Missing1 | Missing2

  predicate Wanted(kind: Kind, a: Node, b: Node, p: Names, ignoreTime: bool) {
    match kind
    case Missing1 => IsOnly(b, a, p)
    case Missing2 => IsOnly(a, b, p)
    case _ => IsDiff(a, b, p, ignoreTime)
  }

  /** The node reported is the one of the tree the map belongs to. */
  function Shown(kind: Kind, a: Node, b: Node, p: Names): Option<Node> {
    match kind
    case Diff1 => At(a, p)
    case Missing2 => At(a, p)
    case _ => At(b, p)
  }

  type Found = map<Names, Node>

  /** What is reported for the part of the tree below `path` whose first name is not in `todo`. */
  predicate AtOrBelow(path: Names, p: Names, todo: set<string>) {
    path <= p && (p[|path|..] == [] || p[|path|..][0] !in todo)
  }

  /** `after` is `before` with everything wanted below `path` added. */
  ghost predicate Adds(kind: Kind, a: Node, b: Node, ignoreTime: bool, path: Names, todo: set<string>, before: Found,
      after: Found) {
    forall p ::
      if AtOrBelow(path, p, todo) && Wanted(kind, a, b, p[|path|..], ignoreTime)
      then p in after && Some(after[p]) == Shown(kind, a, b, p[|path|..])
      else (p in after <==> p in before) && (p in before ==> after[p] == before[p])
  }

  // ----- one child at a time -----

  lemma FirstName(path: Names, c: string, p: Names)
    ensures path + [c] <= p <==> path <= p && p[|path|..] != [] && p[|path|..][0] == c
    ensures path + [c] <= p ==> p[|path|..][1..] == p[|path + [c]|..]
  {
    if path <= p && p[|path|..] != [] && p[|path|..][0] == c {
      assert p == path + p[|path|..];
      assert p[..|path| + 1] == path + [c];
    }
    if path + [c] <= p {
      assert p[..|path|] == path;
      assert p[|path|] == c;
    }
  }

  lemma AtChild(n: Node, r: Names)
    requires r != []
    ensures r[0] in n.children ==> At(n, r) == At(n.children[r[0]], r[1..])
    ensures r[0] in n.children && |r| == 1 ==> At(n, r) == Some(n.children[r[0]])
    ensures r[0] !in n.children ==> At(n, r) == None
  {
    if |r| == 1 {
      assert r[1..] == [];
    }
  }

  lemma WantedInChild(kind: Kind, a: Node, b: Node, ignoreTime: bool, c: string, r: Names)
    requires r != [] && r[0] == c && c in a.children && c in b.children
    ensures Wanted(kind, a, b, r, ignoreTime) <==> Wanted(kind, a.children[c], b.children[c], r[1..], ignoreTime)
    ensures Shown(kind, a, b, r) == Shown(kind, a.children[c], b.children[c], r[1..])
  {
    AtChild(a, r);
    AtChild(b, r);
    if |r| > 1 {
      AtChild(a, r[..|r| - 1]);
      AtChild(b, r[..|r| - 1]);
      assert r[..|r| - 1][1..] == r[1..][..|r[1..]| - 1];
    }
  }

  lemma WantedOneSided(kind: Kind, a: Node, b: Node, ignoreTime: bool, c: string, r: Names)
    requires r != [] && r[0] == c && (c in a.children) != (c in b.children)
    ensures Wanted(kind, a, b, r, ignoreTime) <==> r == [c] && kind == if c in a.children then Missing2 else Missing1
    ensures r == [c] ==> Shown(if c in a.children then Missing2 else Missing1, a, b, r)
                         == Some(if c in a.children then a.children[c] else b.children[c])
  {
    AtChild(a, r);
    AtChild(b, r);
    if |r| > 1 {
      AtChild(a, r[..|r| - 1]);
      AtChild(b, r[..|r| - 1]);
    } else {
      assert r == [c] && r[..0] == [];
    }
  }

  lemma NotWantedOutside(kind: Kind, a: Node, b: Node, ignoreTime: bool, r: Names)
    ensures r != [] && r[0] !in a.children && r[0] !in b.children ==> !Wanted(kind, a, b, r, ignoreTime)
  {
  }

  lemma AddsNode(kind: Kind, a: Node, b: Node, ignoreTime: bool, path: Names, before: Found, after: Found)
    requires after == if IsDiff(a, b, [], ignoreTime) && (kind.Diff1? || kind.Diff2?)
                      then before[path := if kind.Diff1? then a else b] else before
    ensures Adds(kind, a, b, ignoreTime, path, a.children.Keys + b.children.Keys, before, after)
  {
    forall p | AtOrBelow(path, p, a.children.Keys + b.children.Keys) && Wanted(kind, a, b, p[|path|..], ignoreTime)
      ensures p == path && IsDiff(a, b, [], ignoreTime) && (kind.Diff1? || kind.Diff2?)
    {
      var r := p[|path|..];
      NotWantedOutside(kind, a, b, ignoreTime, r);
      assert p == path + r;
    }
    assert AtOrBelow(path, path, a.children.Keys + b.children.Keys) && path[|path|..] == [];
  }

  lemma AddsBoth(
    kind: Kind, a: Node, b: Node, ignoreTime: bool, path: Names, todo: set<string>, c: string,
    start: Found, before: Found, after: Found)
    requires c in todo && c in a.children && c in b.children
    requires Adds(kind, a, b, ignoreTime, path, todo, start, before)
    requires Adds(kind, a.children[c], b.children[c], ignoreTime, path + [c], {}, before, after)
    ensures Adds(kind, a, b, ignoreTime, path, todo - {c}, start, after)
  {
    hide Wanted, Shown;
    forall p
      ensures if AtOrBelow(path, p, todo - {c}) && Wanted(kind, a, b, p[|path|..], ignoreTime)
              then p in after && Some(after[p]) == Shown(kind, a, b, p[|path|..])
              else (p in after <==> p in start) && (p in start ==> after[p] == start[p])
    {
      FirstName(path, c, p);
      if path + [c] <= p {
        WantedInChild(kind, a, b, ignoreTime, c, p[|path|..]);
        assert AtOrBelow(path + [c], p, {});
      }
    }
  }

  lemma AddsOneSided(
    kind: Kind, a: Node, b: Node, ignoreTime: bool, path: Names, todo: set<string>, c: string,
    start: Found, before: Found, after: Found)
    requires c in todo && (c in a.children) != (c in b.children)
    requires Adds(kind, a, b, ignoreTime, path, todo, start, before)
    requires after == if kind == (if c in a.children then Missing2 else Missing1)
                      then before[path + [c] := if c in a.children then a.children[c] else b.children[c]] else before
    ensures Adds(kind, a, b, ignoreTime, path, todo - {c}, start, after)
  {
    hide Wanted, Shown;
    forall p
      ensures if AtOrBelow(path, p, todo - {c}) && Wanted(kind, a, b, p[|path|..], ignoreTime)
              then p in after && Some(after[p]) == Shown(kind, a, b, p[|path|..])
              else (p in after <==> p in start) && (p in start ==> after[p] == start[p])
    {
      FirstName(path, c, p);
      if path + [c] <= p {
        WantedOneSided(kind, a, b, ignoreTime, c, p[|path|..]);
        assert p == path + p[|path|..];
      }
    }
  }

  class Report {
    var missing1: Found
    var missing2: Found
    var diff1: Found
    var diff2: Found

    constructor ()
      ensures missing1 == map[] && missing2 == map[] && diff1 == map[] && diff2 == map[]
    {
      missing1, missing2, diff1, diff2 := map[], map[], map[], map[];
    }

    function Get(kind: Kind): Found
      reads this
    {
      match kind
      case Diff1 => diff1
      case Diff2 => diff2
      case Missing1 => missing1
      case Missing2 => missing2
    }

    /** Everything to report at or below `path` is added, and nothing else. */
    method CompareNode(a: Node, b: Node, path: Names, ignoreTime: bool)
      modifies this
      ensures forall kind :: Adds(kind, a, b, ignoreTime, path, {}, old(Get(kind)), Get(kind))
      decreases a
    {
      hide Adds;
      if !Similar(a.hdr, b.hdr, ignoreTime) {
        diff1 := diff1[path := a];
        diff2 := diff2[path := b];
      }
      var todo := a.children.Keys + b.children.Keys;
      forall kind ensures Adds(kind, a, b, ignoreTime, path, todo, old(Get(kind)), Get(kind)) {
        AddsNode(kind, a, b, ignoreTime, path, old(Get(kind)), Get(kind));
      }
      while todo != {}
        invariant todo <= a.children.Keys + b.children.Keys
        invariant forall kind :: Adds(kind, a, b, ignoreTime, path, todo, old(Get(kind)), Get(kind))
        decreases todo
      {
        var c :| c in todo;
        label Before:
        if c in a.children && c in b.children {
          CompareNode(a.children[c], b.children[c], path + [c], ignoreTime);
          forall kind ensures Adds(kind, a, b, ignoreTime, path, todo - {c}, old(Get(kind)), Get(kind)) {
            AddsBoth(kind, a, b, ignoreTime, path, todo, c, old(Get(kind)), old@Before(Get(kind)), Get(kind));
          }
        } else {
          if c in a.children {
            missing2 := missing2[path + [c] := a.children[c]];
          } else {
            missing1 := missing1[path + [c] := b.children[c]];
          }
          forall kind ensures Adds(kind, a, b, ignoreTime, path, todo - {c}, old(Get(kind)), Get(kind)) {
            AddsOneSided(kind, a, b, ignoreTime, path, todo, c, old(Get(kind)), old@Before(Get(kind)), Get(kind));
          }
        }
        todo := todo - {c};
      }
    }
  }

  // ----- what a comparison tells -----

  /** The trees have the same paths, with similar headers. */
  ghost predicate Agree(a: Node, b: Node, ignoreTime: bool) {
    forall p :: (Has(a, p) <==> Has(b, p))
        && (Has(a, p) ==> Similar(At(a, p).value.hdr, At(b, p).value.hdr, ignoreTime))
  }

  lemma {:induction false} HasParent(n: Node, p: Names)
    requires p != [] && Has(n, p)
    ensures Has(n, p[..|p| - 1])
  {
    if |p| > 1 {
      HasParent(n.children[p[0]], p[1..]);
      assert p[..|p| - 1][1..] == p[1..][..|p[1..]| - 1];
    }
  }

  /** Below the topmost one-sided path everything is one-sided, so reporting the
      topmost one is enough. */
  lemma {:induction false} OnlyBelowReported(a: Node, b: Node, p: Names) returns (top: Names)
    requires Has(a, p) && !Has(b, p)
    ensures top <= p && IsOnly(a, b, top)
  {
    assert p != [];
    HasParent(a, p);
    if Has(b, p[..|p| - 1]) {
      top := p;
    } else {
      top := OnlyBelowReported(a, b, p[..|p| - 1]);
    }
  }

  /** Nothing is reported exactly when the trees agree. */
  lemma NothingReportedMeansEqual(a: Node, b: Node, ignoreTime: bool)
    ensures (forall kind, p :: !Wanted(kind, a, b, p, ignoreTime)) <==> Agree(a, b, ignoreTime)
  {
    if !Agree(a, b, ignoreTime) {
      var p :| !((Has(a, p) <==> Has(b, p))
          && (Has(a, p) ==> Similar(At(a, p).value.hdr, At(b, p).value.hdr, ignoreTime)));
      if Has(a, p) && !Has(b, p) {
        var top := OnlyBelowReported(a, b, p);
        assert Wanted(Missing2, a, b, top, ignoreTime);
      } else if Has(b, p) && !Has(a, p) {
        var top := OnlyBelowReported(b, a, p);
        assert Wanted(Missing1, a, b, top, ignoreTime);
      } else {
        assert Wanted(Diff1, a, b, p, ignoreTime);
      }
    }
  }

  /** Swapping the trees swaps the reports. */
  lemma SwapSwapsReports(a: Node, b: Node, p: Names, ignoreTime: bool)
    ensures Wanted(Missing1, a, b, p, ignoreTime) <==> Wanted(Missing2, b, a, p, ignoreTime)
    ensures Wanted(Diff1, a, b, p, ignoreTime) <==> Wanted(Diff2, b, a, p, ignoreTime)
    ensures Shown(Missing1, a, b, p) == Shown(Missing2, b, a, p) && Shown(Diff1, a, b, p) == Shown(Diff2, b, a, p)
  {
    if Has(a, p) && Has(b, p) {
      var h, g := At(a, p).value.hdr, At(b, p).value.hdr;
      SimilarIsAnEquivalence(h, g, h, ignoreTime);
    }
  }

  /** A whole comparison: all four maps stay empty exactly when the trees agree. */
  method Compare(a: Node, b: Node, ignoreTime: bool) returns (r: Report, same: bool)
    ensures same <==> Agree(a, b, ignoreTime)
    ensures forall kind, p :: p in r.Get(kind) <==> Wanted(kind, a, b, p, ignoreTime)
    ensures forall kind, p | p in r.Get(kind) :: Some(r.Get(kind)[p]) == Shown(kind, a, b, p)
  {
    r := new Report();
    r.CompareNode(a, b, [], ignoreTime);
    forall kind, p
      ensures p in r.Get(kind) <==> Wanted(kind, a, b, p, ignoreTime)
      ensures p in r.Get(kind) ==> Some(r.Get(kind)[p]) == Shown(kind, a, b, p)
    {
      assert Adds(kind, a, b, ignoreTime, [], {}, map[], r.Get(kind));
      assert p[0..] == p && AtOrBelow([], p, {});
    }
    same := r.missing1 == map[] && r.missing2 == map[] && r.diff1 == map[] && r.diff2 == map[];
    NothingReportedMeansEqual(a, b, ignoreTime);
    AllEmpty(a, b, ignoreTime, r);
  }

  lemma AllEmpty(a: Node, b: Node, ignoreTime: bool, r: Report)
    requires forall kind, p :: p in r.Get(kind) <==> Wanted(kind, a, b, p, ignoreTime)
    ensures (r.missing1 == map[] && r.missing2 == map[] && r.diff1 == map[] && r.diff2 == map[]) <==>
            forall kind, p :: !Wanted(kind, a, b, p, ignoreTime)
  {
    if forall kind, p :: !Wanted(kind, a, b, p, ignoreTime) {
      forall kind ensures r.Get(kind) == map[] {
        forall p ensures p !in r.Get(kind) {}
      }
      assert r.Get(Missing1) == map[] && r.Get(Missing2) == map[] && r.Get(Diff1) == map[] && r.Get(Diff2) == map[];
    } else {
      var kind, p :| Wanted(kind, a, b, p, ignoreTime);
      assert p in r.Get(kind);
    }
  }
}
