/** Listing a set of paths in the order of their strings, as sort.Strings and
    filepath.Walk do. */
module SortedPaths {
  import opened Paths
  import opened Layers

  /** No later path renders to a smaller string than an earlier one. */
  ghost predicate Sorted(keys: seq<Path>) {
    forall i, j | 0 <= i < j < |keys| :: !Less(Render(keys[j]), Render(keys[i]))
  }

  /** In sorted order every path comes after its ancestors. */
  lemma SortedIsAncestorsFirst(keys: seq<Path>)
    requires Sorted(keys) && forall k | k in keys :: k.Sub?
    ensures AncestorsFirst(keys)
  {
    forall i, j | 0 <= i < |keys| && 0 <= j < |keys| && Below(keys[i], keys[j])
      ensures i < j
    {
      AncestorsSortFirst(keys[i], keys[j]);
      BelowIsStrict(keys[i], keys[j]);
    }
  }

  /** Put a path before the first one that is not smaller. */
  method Insert(x: Path, keys: seq<Path>) returns (r: seq<Path>)
    requires Sorted(keys)
    ensures Sorted(r) && multiset(r) == multiset(keys) + multiset{x}
  {
    var i := 0;
    while i < |keys| && Less(Render(keys[i]), Render(x))
      invariant i <= |keys|
      invariant forall j | 0 <= j < i :: Less(Render(keys[j]), Render(x))
    {
      i := i + 1;
    }
    InsertKeepsSorted(x, keys, i);
    r := keys[..i] + [x] + keys[i..];
    assert keys == keys[..i] + keys[i..];
  }

  lemma InsertKeepsSorted(x: Path, keys: seq<Path>, i: nat)
    requires Sorted(keys) && i <= |keys|
    requires forall j | 0 <= j < i :: Less(Render(keys[j]), Render(x))
    requires i < |keys| ==> !Less(Render(keys[i]), Render(x))
    ensures Sorted(keys[..i] + [x] + keys[i..])
  {
    hide Less, Render;
    forall j | i <= j < |keys| ensures !Less(Render(keys[j]), Render(x)) {
      if j > i { NotLessTransitive(Render(keys[j]), Render(keys[i]), Render(x)); }
    }
    forall j | 0 <= j < i ensures !Less(Render(x), Render(keys[j])) {
      NotBothLess(Render(x), Render(keys[j]));
    }
  }

  lemma NotLessTransitive(a: string, b: string, c: string)
    requires !Less(a, b) && !Less(b, c)
    ensures !Less(a, c)
  {
    hide Less;
    LessTotal(a, b);
    if Less(a, c) && Less(b, a) { LessTransitive(b, a, c); }
  }

  lemma NotBothLess(a: string, b: string)
    ensures !(Less(a, b) && Less(b, a))
  {
    hide Less;
    if Less(a, b) && Less(b, a) {
      LessTransitive(a, b, a);
      LessIrreflexive(a);
    }
  }

  method SortPaths(s: set<Path>) returns (keys: seq<Path>)
    ensures Sorted(keys) && Lists(keys, s)
  {
    keys := [];
    var rest := s;
    while rest != {}
      invariant rest <= s && Sorted(keys) && multiset(keys) == multiset(s - rest)
    {
      var x :| x in rest;
      keys := Insert(x, keys);
      assert s - (rest - {x}) == (s - rest) + {x};
      rest := rest - {x};
    }
    assert s - rest == s;
    ListsFromMultiset(keys, s);
  }

  lemma ListsFromMultiset(keys: seq<Path>, s: set<Path>)
    requires multiset(keys) == multiset(s)
    ensures Lists(keys, s)
  {
    forall k ensures k in keys <==> k in s {
      assert k in keys <==> k in multiset(keys);
      assert k in s <==> k in multiset(s);
    }
    forall i, j | 0 <= i < j < |keys| ensures keys[i] != keys[j] {
      if keys[i] == keys[j] { CountsTwice(keys, i, j); }
    }
  }

  lemma CountsTwice(keys: seq<Path>, i: nat, j: nat)
    requires i < j < |keys| && keys[i] == keys[j]
    ensures multiset(keys)[keys[i]] >= 2
  {
    assert keys == keys[..i] + [keys[i]] + keys[i + 1..j] + [keys[j]] + keys[j + 1..];
  }
}
