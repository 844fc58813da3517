/** The recency queue of the file map: a list without duplicates, most recent first. */
module Queues {

  function Remove<T(==)>(q: seq<T>, e: T): seq<T> {
    if q == [] then [] else (if q[0] == e then [] else [q[0]]) + Remove(q[1..], e)
  }

  function MoveToFront<T(==)>(q: seq<T>, e: T): seq<T> {
    [e] + Remove(q, e)
  }

  predicate NoDuplicates<T(==)>(q: seq<T>) {
    forall i, j | 0 <= i < j < |q| :: q[i] != q[j]
  }

  lemma {:induction false} RemoveIs<T>(q: seq<T>, e: T)
    ensures forall x <- q :: x in Remove(q, e) <==> x != e
    ensures forall x <- Remove(q, e) :: x in q && x != e
    ensures NoDuplicates(q) ==> NoDuplicates(Remove(q, e))
  {
    if q != [] {
      RemoveIs(q[1..], e);
      assert NoDuplicates(q) ==> NoDuplicates(q[1..]);
      var r := Remove(q[1..], e);
      assert forall x <- q :: x == q[0] || x in q[1..];
      if NoDuplicates(q) {
        assert q[0] !in q[1..];
        assert q[0] !in r;
        assert NoDuplicates([q[0]] + r);
      }
    }
  }

  lemma {:induction false} RemoveAbsent<T>(q: seq<T>, e: T)
    requires e !in q
    ensures Remove(q, e) == q
  {
    if q != [] {
      RemoveAbsent(q[1..], e);
      assert q == [q[0]] + q[1..];
    }
  }

  /** What was before and behind the removed one stays, in order. */
  lemma {:induction false} RemoveAt<T>(a: seq<T>, e: T, b: seq<T>)
    requires e !in a && e !in b
    ensures Remove(a + [e] + b, e) == a + b
  {
    var q := a + [e] + b;
    if a != [] {
      RemoveAt(a[1..], e, b);
      assert q[0] == a[0] && q[1..] == a[1..] + [e] + b;
      assert [a[0]] + (a[1..] + b) == a + b;
    } else {
      RemoveAbsent(b, e);
      assert q[0] == e && q[1..] == b && a + b == b;
    }
  }

  /** Distinct keys count a set. */
  lemma {:induction false} DistinctCount<K>(keys: seq<K>, all: set<K>)
    requires NoDuplicates(keys)
    requires (forall n <- all :: n in keys) && (forall n <- keys :: n in all)
    ensures |all| == |keys|
  {
    if keys != [] {
      var rest := keys[1..];
      assert forall n <- keys :: n == keys[0] || n in rest;
      assert keys[0] !in rest;
      DistinctCount(rest, all - {keys[0]});
    } else {
      assert all == {};
    }
  }
}
