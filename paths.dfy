/** Unix paths as `java.nio.file` treats them, as sequences of name segments: parsing drops
    empty segments (repeated and trailing slashes), `resolve` appends a relative path and
    replaces by an absolute one, `normalize` removes "." and folds "..", and `startsWith`
    compares whole segments. Every path here is absolute, so a path is its segments. */
module Paths {
  import opened Strings

  type Segs = seq<string>

  function NonEmpty(xs: seq<string>): (r: seq<string>)
    ensures forall k :: 0 <= k < |r| ==> r[k] != "" && r[k] in xs
    ensures |r| <= |xs|
  {
    if |xs| == 0 then []
    else if xs[0] == "" then NonEmpty(xs[1..])
    else [xs[0]] + NonEmpty(xs[1..])
  }

  /** Segments that are non-empty and free of slashes: what parsing a path yields. */
  predicate WellFormed(p: Segs) {
    forall k :: 0 <= k < |p| ==> p[k] != "" && '/' !in p[k]
  }

  /** The name segments of a path string. */
  function Segments(s: string): (r: Segs)
    ensures WellFormed(r)
  {
    NonEmpty(Pieces(s, '/'))
  }

  predicate IsAbsolute(s: string) {
    |s| > 0 && s[0] == '/'
  }

  /** A segment that `normalize` keeps: not "." and not "..". */
  predicate PlainSegment(x: string) {
    x != "" && x != "." && x != ".." && '/' !in x
  }

  /** A path that `normalize` leaves as it is. */
  predicate IsNormal(p: Segs) {
    forall k :: 0 <= k < |p| ==> PlainSegment(p[k])
  }

  /** `Path.normalize` of an absolute path: "." is dropped, ".." removes the segment before
      it, and a ".." at the root is dropped. */
  function Normalize(p: Segs): (r: Segs)
    requires WellFormed(p)
    ensures IsNormal(r)
  {
    if |p| == 0 then []
    else
      var front := Normalize(p[..|p| - 1]);
      var last := p[|p| - 1];
      if last == "." then front
      else if last == ".." then (if |front| > 0 then front[..|front| - 1] else front)
      else front + [last]
  }

  /** `dir.resolve(name)`: an absolute name replaces the directory, a relative one is
      appended to it. */
  function Resolve(dir: Segs, name: string): (r: Segs)
    requires IsNormal(dir)
    ensures WellFormed(r)
  {
    if IsAbsolute(name) then Segments(name) else dir + Segments(name)
  }

  /** `path.startsWith(dir)` for two absolute paths. */
  predicate StartsWithPath(path: Segs, dir: Segs) {
    |dir| <= |path| && path[..|dir|] == dir
  }

  /** `downloadsDir.resolve(filename).normalize()`. */
  function Target(dir: Segs, name: string): (r: Segs)
    requires IsNormal(dir)
    ensures IsNormal(r)
  {
    Normalize(Resolve(dir, name))
  }

  /** The traversal guard of the file endpoint. */
  predicate Allowed(dir: Segs, name: string)
    requires IsNormal(dir)
  {
    StartsWithPath(Target(dir, name), dir)
  }

  function JoinSlash(p: Segs): string {
    if |p| == 0 then "" else if |p| == 1 then p[0] else p[0] + "/" + JoinSlash(p[1..])
  }

  /** `Path.toString` of an absolute path. */
  function PathString(p: Segs): (r: string)
    ensures |r| > 0 && r[0] == '/'
  {
    "/" + JoinSlash(p)
  }

  /** `new File(name).getName()`: the last segment, or "" when there is none. */
  function BaseName(name: string): (r: string)
    ensures '/' !in r
    ensures r == "" <==> |Segments(name)| == 0
  {
    var segs := Segments(name);
    if |segs| == 0 then "" else segs[|segs| - 1]
  }

  /** `Paths.get(dir, name)` for a name without slashes. */
  function Child(dir: Segs, name: string): (r: Segs)
    requires '/' !in name
    ensures r == if name == "" then dir else dir + [name]
  {
    NonEmptyOne(name);
    dir + Segments(name)
  }

  // ---------------------------------------------------------------------------------
  // Properties.

  lemma NonEmptyOne(name: string)
    requires '/' !in name
    ensures Segments(name) == if name == "" then [] else [name]
  {
    PiecesOfPlain(name, '/');
  }

  /** Normalizing a normal path changes nothing; so normalizing twice is normalizing once. */
  lemma {:induction false} NormalizeOfNormal(p: Segs)
    requires IsNormal(p)
    ensures Normalize(p) == p
  {
    if |p| > 0 {
      NormalizeOfNormal(p[..|p| - 1]);
      assert p[..|p| - 1] + [p[|p| - 1]] == p;
    }
  }

  lemma NormalizeIdempotent(p: Segs)
    requires WellFormed(p)
    ensures Normalize(Normalize(p)) == Normalize(p)
  {
    NormalizeOfNormal(Normalize(p));
  }

  /** Without "..", normalizing under a normal directory keeps the directory in front. */
  lemma {:induction false} NormalizeUnder(dir: Segs, t: Segs)
    requires IsNormal(dir)
    requires forall k :: 0 <= k < |t| ==> t[k] != "" && '/' !in t[k] && t[k] != ".."
    ensures Normalize(dir + t) == dir + Normalize(t)
  {
    if |t| == 0 {
      assert dir + t == dir;
      NormalizeOfNormal(dir);
    } else {
      var t' := t[..|t| - 1];
      assert (dir + t)[..|dir + t| - 1] == dir + t';
      NormalizeUnder(dir, t');
      if t[|t| - 1] != "." {
        assert dir + Normalize(t') + [t[|t| - 1]] == dir + (Normalize(t') + [t[|t| - 1]]);
      }
    }
  }

  /** A relative name without ".." segments never leaves the directory. */
  lemma NoParentAllowed(dir: Segs, name: string)
    requires IsNormal(dir) && !IsAbsolute(name)
    requires forall k :: 0 <= k < |Segments(name)| ==> Segments(name)[k] != ".."
    ensures Allowed(dir, name)
  {
    NormalizeUnder(dir, Segments(name));
    assert (dir + Normalize(Segments(name)))[..|dir|] == dir;
  }

  /** A plain file name resolves to that file in the directory. */
  lemma PlainNameAllowed(dir: Segs, name: string)
    requires IsNormal(dir) && PlainSegment(name)
    ensures Target(dir, name) == dir + [name] && Allowed(dir, name)
  {
    NonEmptyOne(name);
    assert IsNormal(dir + [name]);
    NormalizeOfNormal(dir + [name]);
  }

  lemma {:induction false} NonEmptyAppend(xs: seq<string>, ys: seq<string>)
    ensures NonEmpty(xs + ys) == NonEmpty(xs) + NonEmpty(ys)
  {
    if |xs| == 0 {
      assert xs + ys == ys;
    } else {
      assert (xs + ys)[1..] == xs[1..] + ys;
      NonEmptyAppend(xs[1..], ys);
      if xs[0] != "" {
        assert [xs[0]] + (NonEmpty(xs[1..]) + NonEmpty(ys)) == [xs[0]] + NonEmpty(xs[1..]) + NonEmpty(ys);
      }
    }
  }

  lemma SegmentsOfParent(name: string)
    requires PlainSegment(name)
    ensures Segments("../" + name) == ["..", name]
  {
    assert "../" + name == ".." + ['/'] + name;
    PiecesAround("..", '/', name);
    NonEmptyAppend(Pieces("..", '/'), Pieces(name, '/'));
    PiecesOfPlain("..", '/');
    PiecesOfPlain(name, '/');
  }

  /** "../name" climbs out of the directory: unless the name is that of the directory itself,
      the guard refuses it. */
  lemma ParentForbidden(dir: Segs, name: string)
    requires IsNormal(dir) && |dir| > 0 && PlainSegment(name) && name != dir[|dir| - 1]
    ensures !Allowed(dir, "../" + name)
  {
    SegmentsOfParent(name);
    var p := dir + ["..", name];
    assert Resolve(dir, "../" + name) == p;
    var q := dir + [".."];
    assert p[..|p| - 1] == q;
    assert q[..|q| - 1] == dir;
    NormalizeOfNormal(dir);
    assert Normalize(q) == dir[..|dir| - 1];
    var t := dir[..|dir| - 1] + [name];
    assert Target(dir, "../" + name) == t;
    assert t[|dir| - 1] != dir[|dir| - 1];
  }

  /** The string of a non-empty path ends with its last segment. */
  lemma {:induction false} PathStringEndsWithLast(p: Segs)
    requires |p| > 0
    ensures EndsWith(PathString(p), p[|p| - 1])
  {
    JoinSlashEndsWithLast(p);
    SuffixOfAppend("/", JoinSlash(p), p[|p| - 1]);
  }

  lemma {:induction false} JoinSlashEndsWithLast(p: Segs)
    requires |p| > 0
    ensures EndsWith(JoinSlash(p), p[|p| - 1])
  {
    if |p| > 1 {
      JoinSlashEndsWithLast(p[1..]);
      assert p[1..][|p[1..]| - 1] == p[|p| - 1];
      SuffixOfAppend(p[0] + "/", JoinSlash(p[1..]), p[|p| - 1]);
    }
  }

  lemma SuffixOfAppend(front: string, s: string, suffix: string)
    requires EndsWith(s, suffix)
    ensures EndsWith(front + s, suffix)
  {
    assert (front + s)[|front + s| - |suffix|..] == s[|s| - |suffix|..];
  }

  lemma {:induction false} NonEmptyOfWellFormed(p: Segs)
    requires WellFormed(p)
    ensures NonEmpty(p) == p
  {
    if |p| > 0 {
      NonEmptyOfWellFormed(p[1..]);
      assert [p[0]] + p[1..] == p;
    }
  }

  /** Splitting the joined segments at the slashes gives them back. */
  lemma {:induction false} PiecesOfJoinSlash(p: Segs)
    requires WellFormed(p) && |p| > 0
    ensures Pieces(JoinSlash(p), '/') == p
  {
    if |p| == 1 {
      PiecesOfPlain(p[0], '/');
    } else {
      assert JoinSlash(p) == p[0] + ['/'] + JoinSlash(p[1..]);
      PiecesAround(p[0], '/', JoinSlash(p[1..]));
      PiecesOfPlain(p[0], '/');
      PiecesOfJoinSlash(p[1..]);
      assert [p[0]] + p[1..] == p;
    }
  }

  /** Parsing the string of a path gives the path back: `Path.toString` joins the segments
      with "/" after a leading "/". */
  lemma SegmentsOfPathString(p: Segs)
    requires WellFormed(p)
    ensures Segments(PathString(p)) == p
  {
    assert PathString(p) == "" + ['/'] + JoinSlash(p);
    PiecesAround("", '/', JoinSlash(p));
    var tail := Pieces(JoinSlash(p), '/');
    NonEmptyAppend([""], tail);
    if |p| == 0 {
      assert tail == [""];
    } else {
      PiecesOfJoinSlash(p);
      NonEmptyOfWellFormed(p);
    }
  }

  /** Two paths with the same string are the same path. */
  lemma PathStringInjective(p: Segs, q: Segs)
    requires WellFormed(p) && WellFormed(q)
    ensures PathString(p) == PathString(q) ==> p == q
  {
    SegmentsOfPathString(p);
    SegmentsOfPathString(q);
  }

  /** An absolute name replaces the directory it is resolved against. */
  lemma ResolveAbsolute(dir: Segs, p: Segs)
    requires IsNormal(dir) && WellFormed(p)
    ensures Resolve(dir, PathString(p)) == p
  {
    SegmentsOfPathString(p);
  }

  /** So the guard refuses an absolute name outside the directory, such as "/etc/passwd"
      for a download directory under "/tmp". */
  lemma AbsoluteOutsideForbidden(dir: Segs, p: Segs)
    requires IsNormal(dir) && IsNormal(p) && !StartsWithPath(p, dir)
    ensures !Allowed(dir, PathString(p))
  {
    ResolveAbsolute(dir, p);
    NormalizeOfNormal(p);
  }

  /** `getName` is the text after the last slash. */
  lemma BaseNameAfterSlash(front: string, last: string)
    requires last != "" && '/' !in last
    ensures BaseName(front + "/" + last) == last
  {
    assert front + "/" + last == front + ['/'] + last;
    PiecesAround(front, '/', last);
    PiecesOfPlain(last, '/');
    NonEmptyAppend(Pieces(front, '/'), [last]);
  }

  /** The name of the string of a non-empty path is its last segment. */
  lemma BaseNameOfPathString(p: Segs)
    requires WellFormed(p) && |p| > 0
    ensures BaseName(PathString(p)) == p[|p| - 1]
  {
    SegmentsOfPathString(p);
  }

  /** "/etc/passwd" is refused for a download directory "/tmp/yt-downloads". */
  lemma EtcPasswdForbidden()
    ensures !Allowed(["tmp", "yt-downloads"], "/etc/passwd")
  {
    var p := ["etc", "passwd"];
    assert PathString(p) == "/etc/passwd";
    AbsoluteOutsideForbidden(["tmp", "yt-downloads"], p);
  }

  /** The name of a file the dry run reports by its full path. */
  lemma BaseNameExample()
    ensures BaseName("/tmp/yt-downloads/Title.webm") == "Title.webm"
  {
    assert "/tmp/yt-downloads/Title.webm" == "/tmp/yt-downloads" + "/" + "Title.webm";
    BaseNameAfterSlash("/tmp/yt-downloads", "Title.webm");
  }
}
