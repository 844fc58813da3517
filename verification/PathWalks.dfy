/** What cleaning a path string is for: it leads where the string as written leads,
    one component after the other (lib/pathutils/path.go and filepath.Join). */
module PathWalks {
  import opened Paths
  import opened PathStrings

  /** One component, taken from a directory. */
  function Move(at: Path, part: string): Path {
    if part == "" || part == "." then at
    else if part == ".." then Dir(at)
    else Sub(at, part)
  }

  function Walk(from: Path, parts: seq<string>): Path {
    if parts == [] then from else Move(Walk(from, parts[..|parts| - 1]), parts[|parts| - 1])
  }

  lemma {:induction false} WalkOn(from: Path, a: seq<string>, b: seq<string>)
    ensures Walk(from, a + b) == Walk(Walk(from, a), b)
  {
    if b == [] {
      assert a + b == a;
    } else {
      WalkOn(from, a, b[..|b| - 1]);
      assert (a + b)[..|a + b| - 1] == a + b[..|b| - 1];
    }
  }

  lemma {:induction false} ProperWalk(parts: seq<string>)
    requires AllProper(parts)
    ensures Walk(Root, parts) == FromParts(parts)
  {
    if parts != [] {
      assert parts[|parts| - 1] in parts;
      ProperWalk(parts[..|parts| - 1]);
    }
  }

  /** Steps up first, then names. */
  predicate UpThenDown(parts: seq<string>) {
    && (forall i | 0 <= i < |parts| :: parts[i] == ".." || Proper(parts[i]))
    && (forall i, j | 0 <= i < j < |parts| && parts[j] == ".." :: parts[i] == "..")
  }

  lemma CleanStepWalks(from: Path, rooted: bool, acc: seq<string>, part: string)
    requires SLASH !in part && UpThenDown(acc) && (rooted ==> from == Root && ".." !in acc)
    ensures var acc' := CleanStep(rooted, acc, part);
            UpThenDown(acc') && (rooted ==> ".." !in acc') && Walk(from, acc') == Move(Walk(from, acc), part)
  {
    var acc' := CleanStep(rooted, acc, part);
    if acc' == acc + [part] {
      assert acc'[..|acc|] == acc;
    }
  }

  /** Cleaning, from any directory, leads where the components lead. */
  lemma {:induction false} CleaningWalks(from: Path, rooted: bool, acc: seq<string>, parts: seq<string>)
    requires (forall p <- parts :: SLASH !in p) && UpThenDown(acc) && (rooted ==> from == Root && ".." !in acc)
    ensures UpThenDown(CleanParts(rooted, acc, parts))
    ensures Walk(from, CleanParts(rooted, acc, parts)) == Walk(Walk(from, acc), parts)
    decreases parts
  {
    if parts != [] {
      CleanStepWalks(from, rooted, acc, parts[0]);
      CleaningWalks(from, rooted, CleanStep(rooted, acc, parts[0]), parts[1..]);
      WalkOn(Walk(from, acc), [parts[0]], parts[1..]);
      assert [parts[0]] + parts[1..] == parts;
      assert Walk(Walk(from, acc), [parts[0]]) == Move(Walk(from, acc), parts[0]);
    }
  }

  // ----- absolute forms -----

  lemma {:induction false} SplitSnoc(s: string)
    ensures Split(s + "/") == Split(s) + [""]
  {
    if s == "" {
      assert (s + "/")[1..] == "";
    } else {
      SplitSnoc(s[1..]);
      assert (s + "/")[1..] == s[1..] + "/";
    }
  }

  lemma {:induction false} TrimmedWalk(from: Path, s: string)
    ensures Walk(from, Split(TrimRight(s))) == Walk(from, Split(s))
  {
    if s != "" && s[|s| - 1] == SLASH {
      var t := s[..|s| - 1];
      TrimmedWalk(from, t);
      assert t + "/" == s;
      SplitSnoc(t);
      WalkOn(from, Split(t), [""]);
    }
  }

  /** The absolute form of any string is where its components lead from the root. */
  lemma AbsPathIsWalk(p: string)
    ensures AbsPath(p) == Render(Walk(Root, Split(p)))
    ensures AbsParts(p) == Parts(Walk(Root, Split(p)))
  {
    CleaningWalks(Root, true, [], Split(TrimRight(p)));
    TrimmedWalk(Root, p);
    AbsPathIsRendered(p);
    ProperWalk(AbsParts(p));
    FromPartsRoundTrip(AbsParts(p));
  }

  /** Splitting loses nothing. */
  lemma {:induction false} JoinSplit(s: string)
    ensures Join(Split(s)) == s
  {
    if s != "" {
      JoinSplit(s[1..]);
      var rest := Split(s[1..]);
      if s[0] == SLASH {
        assert ([""] + rest)[1..] == rest;
      } else {
        assert [[s[0]] + rest[0]] + rest[1..] == Split(s);
        assert Split(s)[1..] == rest[1..];
        assert [s[0]] + s[1..] == s;
      }
    }
  }

  // ----- link targets -----

  predicate Rooted(s: string) {
    s != "" && s[0] == SLASH
  }

  /** The target of a link leads, from wherever the link is taken, where the link as
      written and then the remaining components lead; from the root if the link is
      rooted. It is clean: steps up come first and "." stands only for itself. */
  lemma LinkTargetWalks(linkname: string, rest: seq<string>, from: Path)
    requires (forall p <- rest :: SLASH !in p) && (Rooted(linkname) ==> from == Root)
    ensures Walk(from, LinkTarget(linkname, rest)) == Walk(from, Split(linkname) + rest)
    ensures UpThenDown(LinkTarget(linkname, rest)) || LinkTarget(linkname, rest) == ["."]
    ensures Rooted(linkname) ==>
              AllProper(LinkTarget(linkname, rest))
              && FromParts(LinkTarget(linkname, rest)) == Walk(Root, Split(linkname) + rest)
    ensures LinkTarget(linkname, rest) == [] ==> Rooted(linkname) || (linkname == "" && rest == [])
  {
    var elements := (if linkname == "" then [] else Split(linkname)) + rest;
    assert forall p <- elements :: SLASH !in p;
    var cleaned := CleanParts(Rooted(linkname), [], elements);
    CleaningWalks(from, Rooted(linkname), [], elements);
    WalkOn(from, Split(linkname), rest);
    if linkname == "" { assert elements == rest; } else { WalkOn(from, Split(linkname), rest); }
    if Rooted(linkname) {
      CleanedIsProper([], elements);
      ProperWalk(cleaned);
    } else if LinkTarget(linkname, rest) == ["."] && cleaned == [] {
      WalkOn(from, [], ["."]);
      assert [] + ["."] == ["."];
    }
  }
}
