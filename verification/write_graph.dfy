/** The naming helpers of `src/helpers/writeGraph.ts`: the IRI of a named graph and
    the file a graph is written to. */
module WriteGraph {
  import opened Strings
  import opened NodePath

  /** `prefix.replace(/\/+$|#$/g, '')`: the leftmost match is either the trailing run
      of slashes or a final `#`, so one of the two is removed, never both. */
  function StripIriEnd(prefix: string): (r: string)
    ensures |r| <= |prefix| && r == prefix[..|r|]
    ensures EndsWith(prefix, "/") ==>
      && |r| < |prefix| && (|r| == 0 || r[|r| - 1] != '/')
      && (forall i :: |r| <= i < |prefix| ==> prefix[i] == '/')
    ensures EndsWith(prefix, "#") ==> r + "#" == prefix
    ensures !EndsWith(prefix, "/") && !EndsWith(prefix, "#") ==> r == prefix
  {
    EndsWithChar(prefix, '/');
    EndsWithChar(prefix, '#');
    if |prefix| > 0 && prefix[|prefix| - 1] == '/' then StripSlashes(prefix)
    else if |prefix| > 0 && prefix[|prefix| - 1] == '#' then
      var r := prefix[..|prefix| - 1];
      assert r + "#" == prefix;
      r
    else prefix
  }

  /** `formatUri(prefix, path)`: the stripped prefix and the segments, joined by "/". */
  function FormatUri(prefix: string, path: seq<string>): string {
    Join([StripIriEnd(prefix)] + path, "/")
  }

  /** Without segments the IRI is the stripped prefix; with segments, the segments
      follow the prefix's own "/"-separated pieces. */
  lemma FormatUriSegments(prefix: string, path: seq<string>)
    requires forall k :: 0 <= k < |path| ==> forall i :: 0 <= i < |path[k]| ==> path[k][i] != '/'
    ensures path == [] ==> FormatUri(prefix, path) == StripIriEnd(prefix)
    ensures Split(FormatUri(prefix, path), "/") == Split(StripIriEnd(prefix), "/") + path
  {
    var p := StripIriEnd(prefix);
    if path == [] {
      assert [p] + path == [p];
      assert Split(p, "/") + path == Split(p, "/");
    } else {
      JoinCons(p, path, "/");
      SplitAroundChar(p, '/', Join(path, "/"));
      SplitJoinChar(path, '/');
    }
  }

  /** Trailing slashes on a prefix that does not end in `#` make no difference. */
  lemma FormatUriIgnoresTrailingSlashes(prefix: string, slashes: string, path: seq<string>)
    requires forall i :: 0 <= i < |slashes| ==> slashes[i] == '/'
    requires !EndsWith(prefix, "/") && !EndsWith(prefix, "#")
    ensures FormatUri(prefix + slashes, path) == FormatUri(prefix, path)
  {
    if |slashes| > 0 {
      var s := prefix + slashes;
      assert s[|s| - 1..] == "/";
      StripSlashesOver(prefix, slashes);
    } else {
      assert prefix + slashes == prefix;
    }
  }

  /** Only one kind of ending is removed: `a#/` loses its slash and keeps its `#`. */
  lemma OneEndingRemoved()
    ensures StripIriEnd("a#/") == "a#"
    ensures StripIriEnd("a#") == "a"
  {
    assert "a#/"[2] == '/';
    assert StripSlashes("a#/"[..2]) == "a#";
  }

  /** The file name of the last segment, or `graph`. */
  function LeafName(namepath: seq<string>): string {
    if |namepath| > 0 then namepath[|namepath| - 1] else "graph"
  }

  /** `namepath.slice(0, -1)`. */
  function Directories(namepath: seq<string>): (r: seq<string>)
    ensures |namepath| > 0 ==> namepath == r + [namepath[|namepath| - 1]]
    ensures |namepath| == 0 ==> r == []
  {
    if |namepath| > 0 then namepath[..|namepath| - 1] else []
  }

  /** `formatFilename(dir, namepath)`. */
  function FormatFilename(dir: string, namepath: seq<string>): string {
    PathJoin([StripSlashes(dir)] + Directories(namepath) + [LeafName(namepath) + ".ttl"])
  }

  /** The file is `<last segment>.ttl`, or `graph.ttl` for an empty name path. */
  lemma FormatFilenameLeaf(dir: string, namepath: seq<string>)
    ensures EndsWith(FormatFilename(dir, namepath), LeafName(namepath) + ".ttl")
    ensures |namepath| == 0 ==> EndsWith(FormatFilename(dir, namepath), "graph.ttl")
    ensures EndsWith(FormatFilename(dir, namepath), ".ttl")
  {
    var leaf := LeafName(namepath) + ".ttl";
    var r := FormatFilename(dir, namepath);
    FilenameEndsWithLeaf(dir, namepath);
    TtlTail(LeafName(namepath));
    EndsWithTail(r, leaf, 4);
    if |namepath| == 0 {
      GraphLeaf(namepath);
    }
  }

  lemma GraphLeaf(namepath: seq<string>)
    requires |namepath| == 0
    ensures LeafName(namepath) + ".ttl" == "graph.ttl"
  {
  }

  lemma TtlTail(name: string)
    ensures (name + ".ttl")[|name + ".ttl"| - 4..] == ".ttl"
  {
  }

  lemma FilenameEndsWithLeaf(dir: string, namepath: seq<string>)
    ensures EndsWith(FormatFilename(dir, namepath), LeafName(namepath) + ".ttl")
  {
    var leaf := LeafName(namepath) + ".ttl";
    var front := [StripSlashes(dir)] + Directories(namepath);
    NonEmptyAppend(front, [leaf]);
    assert NonEmpty([leaf]) == [leaf];
    var segs := NonEmpty(front) + [leaf];
    assert FormatFilename(dir, namepath) == Join(segs, "/");
    JoinEnds(segs, "/");
  }

  /** A path segment as it appears in a name path or directory: not empty, not "."
      or "..", which `path.join` would resolve, and no "/". */
  predicate Segment(s: string) {
    s != "" && s != "." && s != ".." && forall i :: 0 <= i < |s| ==> s[i] != '/'
  }

  /** Under a directory `d1/.../dn` (with or without trailing slashes), the file sits in
      the directories of the name path but its last, in order. */
  lemma FormatFilenameLayout(ds: seq<string>, slashes: string, namepath: seq<string>)
    requires |ds| >= 1 && forall k :: 0 <= k < |ds| ==> Segment(ds[k])
    requires forall i :: 0 <= i < |slashes| ==> slashes[i] == '/'
    requires forall k :: 0 <= k < |namepath| ==> Segment(namepath[k])
    ensures Split(FormatFilename(Join(ds, "/") + slashes, namepath), "/")
      == ds + (Directories(namepath) + [LeafName(namepath) + ".ttl"])
  {
    var dir := Join(ds, "/");
    var rest := Directories(namepath) + [LeafName(namepath) + ".ttl"];
    StripSlashesOfJoin(ds, slashes);
    RestSegments(namepath);
    LayoutJoin(ds, rest);
    FilenameSegments(dir, slashes, namepath);
    assert PathJoin([dir] + rest) == Join([dir] + rest, "/");
  }

  /** The joined directory and the segments under it: none is dropped as empty, and
      splitting their join gives back every segment. */
  lemma LayoutJoin(ds: seq<string>, rest: seq<string>)
    requires |ds| >= 1 && forall k :: 0 <= k < |ds| ==> Segment(ds[k])
    requires |rest| >= 1 && forall k :: 0 <= k < |rest| ==> Segment(rest[k])
    ensures NonEmpty([Join(ds, "/")] + rest) == [Join(ds, "/")] + rest
    ensures Split(Join([Join(ds, "/")] + rest, "/"), "/") == ds + rest
  {
    JoinNotEmpty(ds);
    NonEmptyUnder(Join(ds, "/"), rest);
    JoinUnder(ds, rest);
  }

  /** The segments `formatFilename` joins, once the directory has lost its slashes. */
  lemma FilenameSegments(dir: string, slashes: string, namepath: seq<string>)
    requires StripSlashes(dir + slashes) == dir
    ensures FormatFilename(dir + slashes, namepath)
      == PathJoin([dir] + (Directories(namepath) + [LeafName(namepath) + ".ttl"]))
  {
    var mid := Directories(namepath);
    var leaf := LeafName(namepath) + ".ttl";
    assert [dir] + mid + [leaf] == [dir] + (mid + [leaf]);
  }

  /** The directories and the file name under them are all segments. */
  lemma RestSegments(namepath: seq<string>)
    requires forall k :: 0 <= k < |namepath| ==> Segment(namepath[k])
    ensures var rest := Directories(namepath) + [LeafName(namepath) + ".ttl"];
      forall k :: 0 <= k < |rest| ==> Segment(rest[k])
  {
    var mid := Directories(namepath);
    var leaf := LeafName(namepath) + ".ttl";
    var rest := mid + [leaf];
    assert Segment(LeafName(namepath));
    assert Segment(".ttl");
    forall k | 0 <= k < |rest|
      ensures Segment(rest[k])
    {
      if k < |mid| {
        assert rest[k] == namepath[k];
      } else {
        assert rest[k] == leaf;
        assert forall i :: 0 <= i < |leaf| ==> leaf[i] != '/' by {
          assert forall i :: 0 <= i < |LeafName(namepath)| ==> leaf[i] == LeafName(namepath)[i];
          assert forall i :: |LeafName(namepath)| <= i < |leaf| ==> leaf[i] == ".ttl"[i - |LeafName(namepath)|];
        }
      }
    }
  }

  lemma JoinNotEmpty(ds: seq<string>)
    requires |ds| >= 1 && ds[0] != ""
    ensures Join(ds, "/") != ""
  {
    JoinEnds(ds, "/");
  }

  /** A non-empty directory and non-empty segments under it all survive `NonEmpty`. */
  lemma NonEmptyUnder(dir: string, rest: seq<string>)
    requires dir != ""
    requires forall k :: 0 <= k < |rest| ==> Segment(rest[k])
    ensures NonEmpty([dir] + rest) == [dir] + rest
  {
    var segs := [dir] + rest;
    forall k | 0 <= k < |segs|
      ensures segs[k] != ""
    {
      if k > 0 {
        assert segs[k] == rest[k - 1];
      }
    }
    NonEmptyKeeps(segs);
  }

  /** Joining a joined directory with the segments under it and splitting again
      gives every segment. */
  lemma JoinUnder(ds: seq<string>, rest: seq<string>)
    requires |ds| >= 1 && forall k :: 0 <= k < |ds| ==> Segment(ds[k])
    requires |rest| >= 1 && forall k :: 0 <= k < |rest| ==> Segment(rest[k])
    ensures Split(Join([Join(ds, "/")] + rest, "/"), "/") == ds + rest
  {
    JoinAppend(ds, rest, "/");
    JoinCons(Join(ds, "/"), rest, "/");
    var all := ds + rest;
    assert forall k :: 0 <= k < |all| ==> Segment(all[k]) by {
      assert forall k :: 0 <= k < |ds| ==> all[k] == ds[k];
      assert forall k :: |ds| <= k < |all| ==> all[k] == rest[k - |ds|];
    }
    SplitJoinChar(all, '/');
  }

  lemma StripSlashesOfJoin(ds: seq<string>, slashes: string)
    requires |ds| >= 1 && forall k :: 0 <= k < |ds| ==> Segment(ds[k])
    requires forall i :: 0 <= i < |slashes| ==> slashes[i] == '/'
    ensures StripSlashes(Join(ds, "/") + slashes) == Join(ds, "/")
  {
    var dir := Join(ds, "/");
    var last := ds[|ds| - 1];
    assert Segment(last);
    JoinEnds(ds, "/");
    EndsWithTail(dir, last, 1);
    assert dir[|dir| - 1] == last[|last| - 1];
    StripSlashesOver(dir, slashes);
  }

  lemma {:induction false} StripSlashesOver(s: string, slashes: string)
    requires |s| == 0 || s[|s| - 1] != '/'
    requires forall i :: 0 <= i < |slashes| ==> slashes[i] == '/'
    ensures StripSlashes(s + slashes) == s
    decreases |slashes|
  {
    if |slashes| == 0 {
      assert s + slashes == s;
    } else {
      var t := s + slashes;
      assert t[..|t| - 1] == s + slashes[..|slashes| - 1];
      StripSlashesOver(s, slashes[..|slashes| - 1]);
    }
  }
}
