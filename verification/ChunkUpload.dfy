/** Uploading a layer in chunks (pushLayerContent in lib/registry/client.go; "Pushing
    a blob in chunks" in the OCI Distribution Specification). */
module ChunkUpload {
  import opened Wrappers

  /** A request for bytes start..last, both included; empty when last + 1 == start. */
  datatype Range = Range(start: int, last: int)

  function Min(a: int, b: int): int {
    if a < b then a else b
  }

  function First(size: int, chunk: int): Range {
    Range(0, Min(chunk - 1, size - 1))
  }

  /** Both sides are assigned at once, so the new end is computed from the old start. */
  function Next(size: int, chunk: int, r: Range): Range {
    Range(r.last + 1, Min(r.start + chunk - 1, size - 1))
  }

  /** The range after k rounds of the loop, whether or not it would still run. */
  function After(size: int, chunk: int, k: nat): Range {
    if k == 0 then First(size, chunk) else Next(size, chunk, After(size, chunk, k - 1))
  }

  // ----- what the ranges do -----

  /** Ranges taken in order, with neither gap nor overlap, from 0 to `end`. */
  predicate Covers(ranges: seq<Range>, end: int) {
    && (forall i | 0 <= i < |ranges| :: ranges[i].start <= ranges[i].last + 1)
    && (forall i | 0 <= i < |ranges| - 1 :: ranges[i + 1].start == ranges[i].last + 1)
    && (if ranges == [] then end == 0 else ranges[0].start == 0 && ranges[|ranges| - 1].last + 1 == end)
  }

  predicate Has(r: Range, b: int) {
    r.start <= b <= r.last
  }

  function Count(ranges: seq<Range>, b: int): nat {
    if ranges == [] then 0
    else Count(ranges[..|ranges| - 1], b) + if Has(ranges[|ranges| - 1], b) then 1 else 0
  }

  /** Each byte below the end is sent exactly once, no other byte at all. */
  lemma {:induction false} CoversEachOnce(ranges: seq<Range>, end: int, b: int)
    requires Covers(ranges, end)
    ensures end >= 0 && Count(ranges, b) == if 0 <= b < end then 1 else 0
    decreases |ranges|
  {
    if ranges != [] {
      var before := ranges[..|ranges| - 1];
      var last := ranges[|ranges| - 1];
      assert Covers(before, last.start) by {
        if before != [] { assert before[|before| - 1] == ranges[|ranges| - 2]; }
      }
      CoversEachOnce(before, last.start, b);
    }
  }

  /** The loop of pushLayerContent. `sent` holds the requests and `read` what was
      read from the layer for them; `ok` tells whether each request succeeds. */
  method PushLayerContent<T(==)>(content: seq<T>, pushChunk: int, ok: nat -> bool)
    returns (sent: seq<Range>, read: seq<T>, done: bool)
    requires pushChunk >= 1 || pushChunk == -1
    ensures Covers(sent, |read|) && read <= content
    ensures forall i | 0 <= i < |sent| ::
            sent[i] == After(|content|, if pushChunk == -1 then |content| else pushChunk, i)
    ensures done <==> forall i | 0 <= i < |sent| :: ok(i)
    ensures done ==> read == content
    ensures !done ==> sent != [] && !ok(|sent| - 1) && forall i | 0 <= i < |sent| - 1 :: ok(i)
  {
    hide Covers, After, Min;
    var size := |content|;
    var chunk := if pushChunk == -1 then size else pushChunk;
    var start, endInclusive := 0, Min(chunk - 1, size - 1);
    sent, read := [], [];
    FirstRange(size, chunk);
    while start < size
      invariant 0 <= start <= size && start <= endInclusive + 1 <= size
      invariant start < size ==> Range(start, endInclusive) == After(size, chunk, |sent|)
      invariant read == content[..start]
      invariant Covers(sent, start)
      invariant forall i | 0 <= i < |sent| :: sent[i] == After(size, chunk, i) && ok(i)
      decreases size - start, if endInclusive < start then 1 else 0
    {
      CoversMore(sent, Range(start, endInclusive));
      NextRange(size, chunk, |sent|, start, endInclusive);
      sent := sent + [Range(start, endInclusive)];
      read := read + content[start..endInclusive + 1];
      assert read == content[..endInclusive + 1];
      if !ok(|sent| - 1) {
        return sent, read, false;
      }
      start, endInclusive := endInclusive + 1, Min(start + chunk - 1, size - 1);
    }
    done := true;
  }

  lemma FirstRange(size: nat, chunk: int)
    ensures Covers([], 0) && After(size, chunk, 0) == Range(0, Min(chunk - 1, size - 1))
    ensures chunk >= 0 ==> 0 <= Min(chunk - 1, size - 1) + 1 <= size
  {
  }

  lemma CoversMore(sent: seq<Range>, r: Range)
    requires Covers(sent, r.start) && r.start <= r.last + 1
    ensures Covers(sent + [r], r.last + 1)
  {
  }

  lemma NextRange(size: nat, chunk: int, k: nat, start: int, last: int)
    requires After(size, chunk, k) == Range(start, last) && chunk >= 1 && 0 <= start < size && start <= last + 1 <= size
    ensures After(size, chunk, k + 1) == Range(last + 1, Min(start + chunk - 1, size - 1))
    ensures last <= Min(start + chunk - 1, size - 1) <= size - 1
    ensures last < start ==> Min(start + chunk - 1, size - 1) >= start
  {
    EndWithinChunk(size, chunk, k);
  }

  /** No range is longer than a chunk. */
  lemma {:induction false} EndWithinChunk(size: nat, chunk: int, k: nat)
    requires chunk >= 1 && size > 0
    ensures var r := After(size, chunk, k); r.start - 1 <= r.last <= r.start + chunk - 1 && r.last <= size - 1
  {
    if k > 0 {
      EndWithinChunk(size, chunk, k - 1);
    }
  }

  // ----- every second range is empty -----

  /** The even rounds send the chunks one after another; the odd ones send nothing. */
  lemma {:induction false} RoundsAlternate(size: nat, chunk: int, j: nat)
    requires chunk >= 1 && j * chunk < size
    ensures After(size, chunk, 2 * j) == Range(j * chunk, Min((j + 1) * chunk, size) - 1)
    ensures After(size, chunk, 2 * j + 1) == Range(Min((j + 1) * chunk, size), Min((j + 1) * chunk, size) - 1)
  {
    assert (j + 1) * chunk == j * chunk + chunk;
    if j > 0 {
      assert j * chunk == (j - 1) * chunk + chunk;
      RoundsAlternate(size, chunk, j - 1);
      assert After(size, chunk, 2 * j) == Next(size, chunk, After(size, chunk, 2 * (j - 1) + 1));
    } else {
      assert 0 * chunk == 0;
    }
    assert After(size, chunk, 2 * j + 1) == Next(size, chunk, After(size, chunk, 2 * j));
  }

  /** With a chunk size that is not positive the start never gets past zero. */
  lemma {:induction false} NoProgress(size: nat, chunk: int, k: nat)
    requires chunk < 1 && size > 0
    ensures var r := After(size, chunk, k); r.start <= 0 && r.last < 0
  {
    if k > 0 { NoProgress(size, chunk, k - 1); }
  }

  /** The loop ends exactly for chunk sizes of at least one, or nothing to send. */
  lemma EndsExactly(size: nat, chunk: int)
    ensures (exists k :: After(size, chunk, k).start >= size) <==> chunk >= 1 || size == 0
  {
    if chunk >= 1 && size > 0 {
      var j := (size - 1) / chunk;
      assert j * chunk <= size - 1 < (j + 1) * chunk by { DivideUp(size - 1, chunk); }
      RoundsAlternate(size, chunk, j);
      assert After(size, chunk, 2 * j + 1).start >= size;
    } else if size == 0 {
      assert After(size, chunk, 0).start >= size;
    } else {
      forall k ensures After(size, chunk, k).start < size { NoProgress(size, chunk, k); }
    }
  }

  lemma DivideUp(n: nat, d: int)
    requires d >= 1
    ensures n / d >= 0 && (n / d) * d <= n < (n / d + 1) * d
  {
    assert n == (n / d) * d + n % d;
    assert (n / d + 1) * d == (n / d) * d + d;
  }
}
