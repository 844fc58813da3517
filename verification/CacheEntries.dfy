/** How a pair of layer digests is written as a cache entry and read back
    (lib/cache/cache_manager.go). */
module CacheEntries {
  import opened Wrappers

  type Digest = string

  datatype DigestPair = DigestPair(tar: Digest, gzip: Digest)

  const PREFIX: string := "sha256:"
  const EMPTY_ENTRY: string := "MAKISU_CACHE_EMPTY"

  /** strings.Index for one character. */
  function IndexOf(s: string, c: char): (i: int)
    ensures -1 <= i < |s|
    ensures i >= 0 ==> s[i] == c && c !in s[..i]
    ensures i < 0 ==> c !in s
  {
    if s == "" then -1
    else if s[0] == c then 0
    else
      var i := IndexOf(s[1..], c);
      if i < 0 then -1 else i + 1
  }

  /** Digest.Hex: what follows the first colon. */
  function Hex(d: Digest): string {
    d[IndexOf(d, ':') + 1..]
  }

  function CreateEntry(pair: Option<DigestPair>): string {
    match pair
    case None => EMPTY_ENTRY
    case Some(p) => Hex(p.tar) + "," + Hex(p.gzip)
  }

  function ParseEntry(entry: string): Option<DigestPair> {
    var i := IndexOf(entry, ',');
    if i == -1 then None else Some(DigestPair(PREFIX + entry[..i], PREFIX + entry[i + 1..]))
  }

  predicate IsSha256(d: Digest) {
    d == PREFIX + Hex(d)
  }

  lemma {:induction false} FirstIndex(a: string, c: char, b: string)
    requires c !in a
    ensures IndexOf(a + [c] + b, c) == |a|
  {
    var s := a + [c] + b;
    if a != "" {
      assert s[1..] == a[1..] + [c] + b;
      FirstIndex(a[1..], c, b);
    } else {
      assert s[0] == c;
    }
  }

  /** Reading an entry gives the pair back exactly when both are sha256 digests
      and the first one is free of commas. */
  lemma EntryRoundTrip(p: DigestPair)
    ensures ParseEntry(CreateEntry(Some(p))) == Some(p) <==> IsSha256(p.tar) && IsSha256(p.gzip) && ',' !in Hex(p.tar)
    ensures CreateEntry(Some(p)) != EMPTY_ENTRY && CreateEntry(Some(p)) != ""
  {
    var a, b := Hex(p.tar), Hex(p.gzip);
    var s := a + "," + b;
    assert s[|a|] == ',';
    assert ',' !in EMPTY_ENTRY;
    var i := IndexOf(s, ',');
    if ',' !in a {
      FirstIndex(a, ',', b);
      assert s == a + [','] + b;
      assert s[..i] == a && s[i + 1..] == b;
    } else {
      var k :| 0 <= k < |a| && a[k] == ',';
      assert s[k] == ',' && i <= k;
      assert |PREFIX + s[..i]| < |PREFIX| + |a|;
      HexLength(p.tar);
    }
  }

  lemma HexLength(d: Digest)
    ensures IsSha256(d) ==> |d| == |PREFIX| + |Hex(d)|
    ensures PREFIX <= d ==> IsSha256(d)
  {
    if PREFIX <= d {
      FirstIndex("sha256", ':', d[|PREFIX|..]);
      assert d == "sha256" + [':'] + d[|PREFIX|..];
    }
  }
}
