/** Values shared by every layer of the recorder: bytes, optional values and the
    saved-video record that the persistence bridge returns and the list shows. */
module Types {

  /** One octet of a recorded chunk or of a file on disk. */
  newtype byte = x: int | 0 <= x < 256

  type Bytes = seq<byte>

  /** A value that may be absent: `T | null` (or `undefined`) in the TypeScript. */
  datatype Option<T> = None | Some(value: T)

  /** A saved recording. `size` is a byte count and `createdAt` is the millisecond
      count that `Date.getTime()` yields for the moment the file was written. */
  datatype Video = Video(path: string, name: string, size: nat, createdAt: int)

  /** The set of paths that occur in a list of videos. */
  function Paths(vs: seq<Video>): set<string> {
    set v | v in vs :: v.path
  }

  /** No two entries of the list share a path: `path` is the key of the list. */
  predicate UniquePaths(vs: seq<Video>) {
    forall i, j :: 0 <= i < j < |vs| ==> vs[i].path != vs[j].path
  }

  /** Uniqueness of a list with a head, in terms of its tail. */
  lemma UniquePathsCons(v: Video, vs: seq<Video>)
    ensures UniquePaths([v] + vs) <==> v.path !in Paths(vs) && UniquePaths(vs)
  {
    var s := [v] + vs;
    if UniquePaths(s) {
      forall w | w in vs
        ensures w.path != v.path
      {
        var k :| 0 <= k < |vs| && vs[k] == w;
        assert s[0] == v && s[k + 1] == w;
      }
      forall i, j | 0 <= i < j < |vs|
        ensures vs[i].path != vs[j].path
      {
        assert s[i + 1] == vs[i] && s[j + 1] == vs[j];
      }
    }
    if v.path !in Paths(vs) && UniquePaths(vs) {
      forall i, j | 0 <= i < j < |s|
        ensures s[i].path != s[j].path
      {
        if i == 0 {
          assert s[j] == vs[j - 1];
          assert s[j] in vs;
        } else {
          assert s[i] == vs[i - 1] && s[j] == vs[j - 1];
        }
      }
    }
  }
}
