/** Node's `path.join`, for segments that need no normalising (no `.` or `..`
    segment, no repeated or trailing "/"). */
module NodePath {
  import opened Strings

  /** `path.join(...segments)`: the non-empty segments, joined by "/". */
  function PathJoin(segments: seq<string>): string {
    Join(NonEmpty(segments), "/")
  }

  /** When no segment is empty, every one is kept: the join is the plain join. */
  lemma PathJoinKeepsAll(segments: seq<string>)
    requires forall k :: 0 <= k < |segments| ==> segments[k] != ""
    ensures PathJoin(segments) == Join(segments, "/")
  {
    NonEmptyKeeps(segments);
  }
}
