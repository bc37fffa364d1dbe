/** The path guard (`is_safe_relative`) and how a relative path names a file under the project root,
    with POSIX path semantics. */
module Paths {
  import opened Text

  /** `PurePosixPath(p).is_absolute()`: the path starts at the root. */
  predicate IsAbsolute(p: string) {
    |p| > 0 && p[0] == '/'
  }

  /** The segments that `PurePosixPath` keeps as parts: empty segments (from `//` or a trailing `/`)
      and `.` are dropped. */
  function KeptSegments(segs: seq<string>): (parts: seq<string>)
    ensures |parts| <= |segs|
    ensures forall seg :: seg in parts <==> seg in segs && seg != "" && seg != "."
  {
    if segs == [] then []
    else
      var rest := KeptSegments(segs[1..]);
      if segs[0] == "" || segs[0] == "." then rest else [segs[0]] + rest
  }

  /** `PurePosixPath(p).parts` for a relative path: its non-empty `/`-segments other than `.`, in order. */
  function Parts(p: string): (parts: seq<string>)
    ensures forall i :: 0 <= i < |parts| ==> parts[i] != "" && parts[i] != "." && '/' !in parts[i]
    ensures forall seg :: seg in parts <==> seg in Split(p, "/") && seg != "" && seg != "."
  {
    SplitPiecesAreFree(p, "/");
    var parts := KeptSegments(Split(p, "/"));
    assert forall i :: 0 <= i < |parts| ==> parts[i] != "" && parts[i] != "." && '/' !in parts[i] by {
      forall i | 0 <= i < |parts| ensures parts[i] != "" && parts[i] != "." && '/' !in parts[i] {
        assert parts[i] in parts;
        assert parts[i] in Split(p, "/");
        CharFree(parts[i], '/');
      }
    }
    parts
  }

  /** No part is the parent-directory marker. */
  function NoParentPart(parts: seq<string>): (r: bool)
    ensures r <==> ".." !in parts
  {
    if parts == [] then true else parts[0] != ".." && NoParentPart(parts[1..])
  }

  /** `is_safe_relative(path)`: a path is accepted exactly when it is relative and none of its
      `/`-segments is `..`. */
  function IsSafeRelative(p: string): (r: bool)
    ensures r <==> !IsAbsolute(p) && ".." !in Split(p, "/")
  {
    if IsAbsolute(p) then false else NoParentPart(Parts(p))
  }

  /** The project-relative name of the file `root / p` denotes: its parts joined by `/`
      (`a//b/./c` and `a/b/c/` both name `a/b/c`; `""` and `.` name the root itself). */
  function Normalize(p: string): (r: string)
    ensures r == "" <==> Parts(p) == []
    ensures !IsAbsolute(r)
  {
    var parts := Parts(p);
    assert parts != [] ==> |Join(parts, "/")| > 0 && Join(parts, "/")[0] == parts[0][0] by {
      if parts != [] {
        var x := parts[0];
        assert x == [x[0]] + x[1..];
        assert parts == [[x[0]] + x[1..]] + parts[1..];
        JoinHead(x[0], x[1..], parts[1..], "/");
      }
    }
    assert parts != [] ==> parts[0][0] != '/' by {
      if parts != [] {
        assert parts[0][0] in parts[0];
      }
    }
    Join(parts, "/")
  }

  /** Keeping the parts of segments that already are parts changes nothing. */
  lemma {:induction false} KeptSegmentsOfParts(parts: seq<string>)
    requires forall i :: 0 <= i < |parts| ==> parts[i] != "" && parts[i] != "."
    ensures KeptSegments(parts) == parts
  {
    if parts != [] {
      KeptSegmentsOfParts(parts[1..]);
      assert [parts[0]] + parts[1..] == parts;
    }
  }

  /** A normalized name has exactly the parts of the path it came from. */
  lemma PartsOfNormalize(p: string)
    ensures Parts(Normalize(p)) == Parts(p)
  {
    var parts := Parts(p);
    if parts == [] {
      assert Normalize(p) == "";
      assert Split("", "/") == [""];
    } else {
      SplitJoin(parts, '/');
      KeptSegmentsOfParts(parts);
    }
  }

  /** Normalizing is idempotent: a normalized name is its own canonical form. */
  lemma NormalizeIdempotent(p: string)
    ensures Normalize(Normalize(p)) == Normalize(p)
  {
    PartsOfNormalize(p);
  }

  /** An absolute path is rejected. */
  lemma RejectsAbsolute()
    ensures !IsSafeRelative("/etc/passwd")
  {
  }

  /** A path that climbs out of the root is rejected. */
  lemma RejectsParent()
    ensures !IsSafeRelative("../secrets.env")
  {
    assert "../secrets.env" == ".." + "/" + "secrets.env";
    SplitAtFirst("..", '/', "secrets.env");
  }

  /** Segments that are neither `..` nor hold `/`, the first non-empty, join to a safe path. */
  lemma AcceptsPlainSegments(segs: seq<string>)
    requires |segs| >= 1 && segs[0] != ""
    requires forall i :: 0 <= i < |segs| ==> segs[i] != ".." && '/' !in segs[i]
    ensures IsSafeRelative(Join(segs, "/"))
  {
    SplitJoin(segs, '/');
    var j := Join(segs, "/");
    assert j[0] == segs[0][0] by {
      if |segs| > 1 {
        assert j == segs[0] + "/" + Join(segs[1..], "/");
      }
    }
  }

  /** An ordinary nested path is accepted. */
  lemma AcceptsNested()
    ensures IsSafeRelative("src/app/index.ts")
  {
    var segs := ["src", "app", "index.ts"];
    assert segs[1..] == ["app", "index.ts"] && segs[1..][1..] == ["index.ts"];
    assert Join(segs, "/") == "src/app/index.ts";
    AcceptsPlainSegments(segs);
  }

  /** Three dots are a file name, not the parent marker. */
  lemma AcceptsThreeDots()
    ensures IsSafeRelative("...")
  {
    assert Join(["..."], "/") == "...";
    SplitJoin(["..."], '/');
  }
}
