/** Tar headers and the equality notion of the diff (lib/tario/compare.go). */
module TarHeaders {
  import opened Wrappers

  datatype TypeFlag = TypeReg | TypeRegA | TypeLink | TypeSymlink | TypeDir | TypeOther(flag: int)

  /** The header fields the comparison reads. `mode` is FileInfo().Mode() and
      `modTime` counts nanoseconds. */
  datatype Header = Header(
    name: string, typeflag: TypeFlag, linkname: string,
    uid: int, gid: int, size: int, mode: int, modTime: int)
  {
    predicate IsDir() { typeflag.TypeDir? }
    predicate IsSymlink() { typeflag.TypeSymlink? }
    predicate IsRegular() { typeflag.TypeReg? || typeflag.TypeRegA? }
    predicate Supported() { !typeflag.TypeOther? }
  }

  datatype CompareError = UnsupportedType

  const SECOND: int := 1_000_000_000

  predicate SameTime(h: Header, nh: Header, ignoreTime: bool) {
    ignoreTime || h.modTime / SECOND == nh.modTime / SECOND
  }

  predicate SameOwnerAndMode(h: Header, nh: Header) {
    h.uid == nh.uid && h.gid == nh.gid && h.mode == nh.mode
  }

  function IsSimilarHeader(h: Header, nh: Header, ignoreTime: bool): Result<bool, CompareError> {
    if h.name == "" && nh.name == "" then Ok(true)
    else
      match h.typeflag
      case TypeSymlink =>
        Ok(nh.IsSymlink() && h.linkname == nh.linkname)
      case TypeLink =>
        Ok(nh.typeflag.TypeLink? && SameTime(h, nh, ignoreTime)
           && h.linkname == nh.linkname && SameOwnerAndMode(h, nh))
      case TypeDir =>
        Ok(nh.IsDir() && SameTime(h, nh, ignoreTime) && SameOwnerAndMode(h, nh))
      case TypeReg =>
        Ok(nh.IsRegular() && SameTime(h, nh, ignoreTime) && SameOwnerAndMode(h, nh) && h.size == nh.size)
      case TypeRegA =>
        Ok(nh.IsRegular() && SameTime(h, nh, ignoreTime) && SameOwnerAndMode(h, nh) && h.size == nh.size)
      case TypeOther(_) => Err(UnsupportedType)
  }

  /** Callers that ignore the error see this boolean. */
  predicate Similar(h: Header, nh: Header, ignoreTime: bool) {
    IsSimilarHeader(h, nh, ignoreTime) == Ok(true)
  }

  /** Two headers without a name, as the root has, are similar whatever they hold;
      with one name they are not unless they are of one kind. */
  lemma WithoutNames(h: Header, nh: Header, ignoreTime: bool)
    ensures h.name == "" && nh.name == "" ==> IsSimilarHeader(h, nh, ignoreTime) == Ok(true)
    ensures nh.name != "" && h.typeflag != nh.typeflag && !(h.IsRegular() && nh.IsRegular()) ==>
              !Similar(h, nh, ignoreTime)
  {
  }

  /** With times ignored the answer is the one for headers of one and the same time. */
  lemma IgnoringTime(h: Header, nh: Header, t: int)
    ensures IsSimilarHeader(h, nh, true) == IsSimilarHeader(h.(modTime := t), nh.(modTime := t), false)
  {
  }

  /** The diff's equality is an equivalence on named headers of supported types,
      it never identifies files of different kinds, and it is symmetric even
      where the comparison reports an error. */
  lemma SimilarIsAnEquivalence(a: Header, b: Header, c: Header, ignoreTime: bool)
    ensures a.Supported() ==> Similar(a, a, ignoreTime)
    ensures Similar(a, b, ignoreTime) <==> Similar(b, a, ignoreTime)
    ensures (a.name != "" && b.name != "" && c.name != "" && Similar(a, b, ignoreTime) && Similar(b, c, ignoreTime))
            ==> Similar(a, c, ignoreTime)
    ensures (a.name != "" && Similar(a, b, ignoreTime))
            ==> (a.IsDir() <==> b.IsDir()) && (a.IsSymlink() <==> b.IsSymlink())
                && (a.IsRegular() <==> b.IsRegular()) && (a.typeflag.TypeLink? <==> b.typeflag.TypeLink?)
  {
  }
}
