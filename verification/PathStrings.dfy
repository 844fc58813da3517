/** Slash-separated path strings (lib/pathutils/path.go and the parts of
    path/filepath it relies on), and how they relate to component paths. */
module PathStrings {
  import opened Wrappers
  import opened Paths

  const SLASH: char := '/'

  // ----- strings -----

  function TrimLeft(s: string): (t: string)
    ensures t != "" ==> t[0] != SLASH
  {
    if s != "" && s[0] == SLASH then TrimLeft(s[1..]) else s
  }

  function TrimRight(s: string): (t: string)
    ensures t != "" ==> t[|t| - 1] != SLASH
    ensures t <= s
  {
    if s != "" && s[|s| - 1] == SLASH then TrimRight(s[..|s| - 1]) else s
  }

  /** strings.Split(s, "/"). */
  function Split(s: string): (parts: seq<string>)
    ensures |parts| > 0
    ensures forall p | p in parts :: SLASH !in p
  {
    if s == "" then [""]
    else
      var rest := Split(s[1..]);
      if s[0] == SLASH then [""] + rest else [[s[0]] + rest[0]] + rest[1..]
  }

  function Join(parts: seq<string>): string {
    if |parts| == 0 then ""
    else if |parts| == 1 then parts[0]
    else parts[0] + "/" + Join(parts[1..])
  }

  // ----- cleaning -----

  /** One component of path.Clean; `rooted` paths cannot climb above the root. */
  function CleanStep(rooted: bool, acc: seq<string>, part: string): seq<string> {
    if part == "" || part == "." then acc
    else if part == ".." then
      if acc != [] && acc[|acc| - 1] != ".." then acc[..|acc| - 1]
      else if rooted then acc
      else acc + [part]
    else acc + [part]
  }

  function CleanParts(rooted: bool, acc: seq<string>, parts: seq<string>): seq<string>
    decreases parts
  {
    if parts == [] then acc else CleanParts(rooted, CleanStep(rooted, acc, parts[0]), parts[1..])
  }

  predicate Proper(name: string) {
    name != "" && name != "." && name != ".." && SLASH !in name
  }

  predicate AllProper(parts: seq<string>) {
    forall p | p in parts :: Proper(p)
  }

  /** Cleaning a rooted path leaves proper names only. */
  lemma {:induction false} CleanedIsProper(acc: seq<string>, parts: seq<string>)
    requires AllProper(acc) && forall p | p in parts :: SLASH !in p
    ensures AllProper(CleanParts(true, acc, parts))
    decreases parts
  {
    if parts != [] {
      CleanedIsProper(CleanStep(true, acc, parts[0]), parts[1..]);
    }
  }

  /** Proper names are already clean. */
  lemma {:induction false} ProperIsClean(rooted: bool, acc: seq<string>, parts: seq<string>)
    requires AllProper(parts)
    ensures CleanParts(rooted, acc, parts) == acc + parts
    decreases parts
  {
    if parts != [] {
      assert parts[0] in parts;
      ProperIsClean(rooted, acc + [parts[0]], parts[1..]);
      assert acc + [parts[0]] + parts[1..] == acc + parts;
    }
  }

  // ----- lib/pathutils -----

  /** AbsPath: path.Join("/", strings.TrimRight(p, "/")). */
  function AbsParts(p: string): seq<string> {
    CleanParts(true, [], Split(TrimRight(p)))
  }

  function AbsPath(p: string): string {
    "/" + Join(AbsParts(p))
  }

  function RelPath(p: string): string {
    TrimLeft(p)
  }

  function SplitPath(p: string): seq<string> {
    var trimmed := TrimLeft(TrimRight(p));
    if trimmed == "" then [] else Split(trimmed)
  }

  // ----- the strings stand for component paths -----

  predicate ProperPath(p: Path) {
    AllProper(Parts(p))
  }

  lemma {:induction false} SplitName(name: string)
    requires SLASH !in name
    ensures Split(name) == [name]
  {
    if name != "" {
      assert forall c | c in name[1..] :: c in name;
      SplitName(name[1..]);
      assert [name[0]] + name[1..] == name;
    }
  }

  lemma {:induction false} SplitCons(name: string, rest: string)
    requires SLASH !in name
    ensures Split(name + "/" + rest) == [name] + Split(rest)
  {
    var s := name + "/" + rest;
    if name == "" {
      assert s[1..] == rest;
    } else {
      SplitCons(name[1..], rest);
      assert s[1..] == name[1..] + "/" + rest;
      assert [name[0]] + name[1..] == name;
      var t := Split(s[1..]);
      assert t[0] == name[1..] && t[1..] == Split(rest);
    }
  }

  /** Split undoes Join on names without slashes. */
  lemma {:induction false} SplitJoin(parts: seq<string>)
    requires parts != [] && forall p | p in parts :: SLASH !in p
    ensures Split(Join(parts)) == parts
  {
    if |parts| == 1 {
      SplitName(parts[0]);
    } else {
      SplitJoin(parts[1..]);
      SplitCons(parts[0], Join(parts[1..]));
    }
  }

  lemma {:induction false} JoinSnoc(parts: seq<string>, name: string)
    requires parts != []
    ensures Join(parts + [name]) == Join(parts) + "/" + name
  {
    if |parts| == 1 {
      assert (parts + [name])[1..] == [name];
    } else {
      JoinSnoc(parts[1..], name);
      assert (parts + [name])[1..] == parts[1..] + [name];
    }
  }

  lemma {:induction false} RenderIsJoin(p: Path)
    ensures Render(p) == "/" + Join(Parts(p))
  {
    if p.Sub? {
      RenderIsJoin(p.parent);
      if p.parent.Sub? { JoinSnoc(Parts(p.parent), p.name); }
    }
  }

  lemma {:induction false} JoinEnds(parts: seq<string>)
    requires AllProper(parts) && parts != []
    ensures Join(parts) != "" && Join(parts)[0] != SLASH && Join(parts)[|Join(parts)| - 1] != SLASH
  {
    assert parts[0] in parts;
    if |parts| > 1 { JoinEnds(parts[1..]); }
  }

  /** The string of a proper path is its own clean form, and splitting it gives
      its components back. */
  lemma RenderRoundTrip(p: Path)
    requires ProperPath(p)
    ensures SplitPath(Render(p)) == Parts(p)
    ensures AbsPath(Render(p)) == Render(p)
    ensures AbsParts(Render(p)) == Parts(p)
  {
    RenderIsJoin(p);
    var parts := Parts(p);
    var j := Join(parts);
    var s := "/" + j;
    if parts == [] {
      assert s[..0] == "";
      assert TrimRight(s) == "" by { assert TrimRight(s) == TrimRight(s[..0]); }
      var empty := [""];
      assert Split("") == empty && empty[1..] == [];
      assert CleanParts(true, [], empty) == CleanParts(true, CleanStep(true, [], ""), empty[1..]);
      assert AbsParts(Render(p)) == [];
    } else {
      JoinEnds(parts);
      assert s[|s| - 1] == j[|j| - 1];
      assert TrimRight(s) == s;
      assert s[1..] == j && TrimLeft(s) == TrimLeft(j) == j;
      SplitJoin(parts);
      SplitCons("", j);
      assert "" + "/" + j == s;
      assert Split(s) == [""] + parts;
      assert ([""] + parts)[1..] == parts;
      assert CleanParts(true, [], [""] + parts) == CleanParts(true, [], parts);
      ProperIsClean(true, [], parts);
      assert [] + parts == parts;
    }
  }

  lemma AbsPathIsRendered(p: string)
    ensures AllProper(AbsParts(p))
    ensures AbsPath(p) == Render(FromParts(AbsParts(p)))
    ensures AbsPath(AbsPath(p)) == AbsPath(p)
  {
    CleanedIsProper([], Split(TrimRight(p)));
    var q := FromParts(AbsParts(p));
    FromPartsRoundTrip(AbsParts(p));
    RenderIsJoin(q);
    RenderRoundTrip(q);
  }

  // ----- the target of a symlink met on the way -----

  /** SplitPath(filepath.Join(linkname, rest...)): Join ignores empty elements
      and cleans the result, keeping a relative link relative. */
  function LinkTarget(linkname: string, rest: seq<string>): seq<string> {
    var rooted := linkname != "" && linkname[0] == SLASH;
    var elements := (if linkname == "" then [] else Split(linkname)) + rest;
    var cleaned := CleanParts(rooted, [], elements);
    if cleaned == [] && !rooted && elements != [] then ["."] else cleaned
  }

  /** For an absolute clean link target the remaining components are appended. */
  lemma AbsoluteLinkTarget(t: Path, rest: seq<string>)
    requires ProperPath(t) && AllProper(rest)
    ensures LinkTarget(Render(t), rest) == Parts(t) + rest
  {
    RenderIsJoin(t);
    var parts := Parts(t);
    var j := Join(parts);
    SplitCons("", j);
    assert "" + "/" + j == Render(t);
    if parts == [] {
      assert Split(j) == [""];
      var e := Split(Render(t)) + rest;
      assert e[0] == "" && e[1..][0] == "" && e[1..][1..] == rest;
      ProperIsClean(true, [], rest);
      assert CleanParts(true, [], e) == CleanParts(true, [], e[1..]) == CleanParts(true, [], rest);
      assert [] + rest == Parts(t) + rest;
    } else {
      SplitJoin(parts);
      assert Split(Render(t)) + rest == [""] + (parts + rest);
      assert ([""] + (parts + rest))[1..] == parts + rest;
      ProperIsClean(true, [], parts + rest);
      assert [] + (parts + rest) == parts + rest;
    }
  }

  // ----- IsDescendantOfAny -----

  /** path.Dir of a clean absolute path. */
  function Dir(p: Path): Path {
    if p.Root? then Root else p.parent
  }

  predicate HasPrefix(s: string, prefix: string) {
    prefix <= s
  }

  /** The string test for one ancestor. */
  predicate StringDescendant(p: string, ancestor: string) {
    var q := FromParts(AbsParts(p));
    || AbsPath(p) == AbsPath(ancestor)
    || AbsPath(ancestor) == "/"
    || HasPrefix(Render(Dir(q)) + "/", AbsPath(ancestor) + "/")
  }

  method IsDescendantOfAny(p: string, ancestors: seq<string>) returns (r: bool)
    ensures r <==> exists a :: a in ancestors && Within(FromParts(AbsParts(a)), FromParts(AbsParts(p)))
  {
    for i := 0 to |ancestors|
      invariant forall a | a in ancestors[..i] :: !Within(FromParts(AbsParts(a)), FromParts(AbsParts(p)))
    {
      DescendantIsWithin(p, ancestors[i]);
      if StringDescendant(p, ancestors[i]) {
        return true;
      }
    }
    return false;
  }

  /** Comparing strings with a trailing slash is comparing components: a prefix
      that stops inside a name does not count. */
  lemma {:induction false} StringPrefixIsWithin(a: Path, p: Path)
    requires ProperPath(a) && ProperPath(p) && a.Sub?
    ensures HasPrefix(Render(p) + "/", Render(a) + "/") <==> Within(a, p)
    decreases p
  {
    var s, t := Render(p) + "/", Render(a) + "/";
    NoSlashInside(a);
    if p.Root? {
      assert s == "//";
      assert Render(a)[1] != SLASH by { RenderSecond(a); }
    } else {
      var up := Render(p.parent) + "/";
      assert Parts(p.parent) == Parts(p)[..|Parts(p)| - 1];
      assert Parts(p)[|Parts(p)| - 1] == p.name && p.name in Parts(p);
      StringPrefixIsWithin(a, p.parent);
      LastSlash(a, p);
    }
  }

  lemma NoSlashInside(a: Path)
    requires ProperPath(a) && a.Sub?
    ensures Proper(a.name) && ProperPath(a.parent)
  {
    assert Parts(a)[|Parts(a)| - 1] == a.name && a.name in Parts(a);
    assert forall q | q in Parts(a.parent) :: q in Parts(a);
  }

  lemma {:induction false} RenderSecond(a: Path)
    requires ProperPath(a) && a.Sub?
    ensures |Render(a)| > 1 && Render(a)[0] == SLASH && Render(a)[1] != SLASH
  {
    NoSlashInside(a);
    if a.parent.Sub? { RenderSecond(a.parent); }
  }

  /** A prefix that ends in a slash cannot stop inside a name. */
  lemma SlashPrefix(t: string, up: string, name: string)
    requires t != "" && t[|t| - 1] == SLASH && SLASH !in name
    ensures t <= up + name + "/" <==> (t <= up || t == up + name + "/")
  {
    var s := up + name + "/";
    assert forall k | 0 <= k < |name| :: name[k] != SLASH;
    assert forall k | 0 <= k < |up| :: s[k] == up[k];
    assert forall k | |up| <= k < |s| - 1 :: s[k] == name[k - |up|];
    if t <= s && |t| <= |up| {
      assert t == up[..|t|] by { assert s[..|t|] == up[..|t|]; }
    } else if t <= s {
      assert s[|t| - 1] == SLASH;
      assert |t| == |s|;
      assert t == s;
    }
    assert t <= up ==> |t| <= |s| && s[..|t|] == up[..|t|] == t;
  }

  /** The rendering of a path below a proper parent, split at its last name. */
  lemma LastSlash(a: Path, p: Path)
    requires ProperPath(a) && ProperPath(p) && a.Sub? && p.Sub?
    ensures HasPrefix(Render(p) + "/", Render(a) + "/") <==>
            (a == p || (p.parent.Sub? && HasPrefix(Render(p.parent) + "/", Render(a) + "/")))
  {
    NoSlashInside(p);
    RenderSecond(a);
    RenderInjective(a, p);
    var t := Render(a) + "/";
    var up := if p.parent.Root? then "/" else Render(p.parent) + "/";
    assert Render(p) + "/" == up + p.name + "/";
    SlashPrefix(t, up, p.name);
    assert t == Render(p) + "/" <==> Render(a) == Render(p) by {
      assert t[..|t| - 1] == Render(a);
      assert (Render(p) + "/")[..|Render(p)|] == Render(p);
    }
  }

  lemma RenderInjective(a: Path, p: Path)
    requires ProperPath(a) && ProperPath(p)
    ensures Render(a) == Render(p) <==> a == p
  {
    RenderRoundTrip(a);
    RenderRoundTrip(p);
    PartsRoundTrip(a);
    PartsRoundTrip(p);
  }

  /** Blacklisting is exactly the component-wise ancestor relation. */
  lemma DescendantIsWithin(p: string, ancestor: string)
    ensures StringDescendant(p, ancestor) <==> Within(FromParts(AbsParts(ancestor)), FromParts(AbsParts(p)))
  {
    AbsPathIsRendered(p);
    AbsPathIsRendered(ancestor);
    var q, a := FromParts(AbsParts(p)), FromParts(AbsParts(ancestor));
    FromPartsRoundTrip(AbsParts(p));
    FromPartsRoundTrip(AbsParts(ancestor));
    RenderInjective(a, q);
    RenderInjective(a, Root);
    RootWithin(q);
    if a.Sub? {
      if q.Sub? { NoSlashInside(q); }
      StringPrefixIsWithin(a, Dir(q));
    }
  }
}
