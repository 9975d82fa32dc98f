/**
 * Path strings and the locations they name.
 *
 * A path string is resolved to its list of segments: the pieces between
 * '/' characters, with empty pieces dropped, so "a//b/" and "a/b" name the
 * same location.  The file system model is keyed by these segment lists.
 */
module Paths {

  /** `s` contains no '/'. */
  predicate NoSlash(s: string) {
    forall j :: 0 <= j < |s| ==> s[j] != '/'
  }

  /** A single path segment: non-empty and free of '/'. */
  predicate IsSegment(s: string) {
    s != [] && NoSlash(s)
  }

  /** Reading state after a prefix of a path: the finished segments and the piece being read. */
  datatype Scan = Scan(done: seq<string>, piece: string)

  /** The segment list with `piece` finished, if it is non-empty. */
  function Flush(done: seq<string>, piece: string): (r: seq<string>) {
    if piece == [] then done else done + [piece]
  }

  /** Reads `p` left to right; a '/' finishes the current piece. */
  function ScanPath(p: string): (r: Scan)
    decreases |p|
  {
    if p == [] then Scan([], [])
    else
      var s := ScanPath(p[..|p| - 1]);
      var c := p[|p| - 1];
      if c == '/' then Scan(Flush(s.done, s.piece), []) else Scan(s.done, s.piece + [c])
  }

  /** The segments that the path string `p` names. */
  function Resolve(p: string): (r: seq<string>) {
    var s := ScanPath(p);
    Flush(s.done, s.piece)
  }

  /** Scanning keeps every finished piece a segment and the open piece free of '/'. */
  lemma {:induction false} ScanPathSegments(p: string)
    ensures NoSlash(ScanPath(p).piece)
    ensures forall k :: 0 <= k < |ScanPath(p).done| ==> IsSegment(ScanPath(p).done[k])
    decreases |p|
  {
    if p != [] {
      ScanPathSegments(p[..|p| - 1]);
    }
  }

  /** Every resolved piece is a proper segment. */
  lemma ResolveYieldsSegments(p: string)
    ensures forall k :: 0 <= k < |Resolve(p)| ==> IsSegment(Resolve(p)[k])
  {
    ScanPathSegments(p);
  }

  /** Scanning `a + "/" + b` has finished `a` when it reaches `b`. */
  lemma {:induction false} ScanPathJoin(a: string, b: string)
    ensures ScanPath(a + "/" + b) == Scan(Resolve(a) + ScanPath(b).done, ScanPath(b).piece)
    decreases |b|
  {
    var p := a + "/" + b;
    if b == [] {
      assert p[..|p| - 1] == a;
    } else {
      assert p[..|p| - 1] == a + "/" + b[..|b| - 1];
      assert p[|p| - 1] == b[|b| - 1];
      ScanPathJoin(a, b[..|b| - 1]);
      var s := ScanPath(b[..|b| - 1]);
      if b[|b| - 1] == '/' {
        assert Flush(Resolve(a) + s.done, s.piece) == Resolve(a) + Flush(s.done, s.piece);
      }
    }
  }

  /** Joining two path strings with '/' appends their segment lists. */
  lemma ResolveJoin(a: string, b: string)
    ensures Resolve(a + "/" + b) == Resolve(a) + Resolve(b)
  {
    ScanPathJoin(a, b);
    var s := ScanPath(b);
    assert Flush(Resolve(a) + s.done, s.piece) == Resolve(a) + Flush(s.done, s.piece);
  }

  /** A segment string names exactly itself. */
  lemma {:induction false} ResolveSegment(s: string)
    requires IsSegment(s)
    ensures Resolve(s) == [s]
  {
    ScanPieceOnly(s);
  }

  /** A string without '/' is read as one open piece. */
  lemma {:induction false} ScanPieceOnly(s: string)
    requires NoSlash(s)
    ensures ScanPath(s) == Scan([], s)
    decreases |s|
  {
    if s != [] {
      ScanPieceOnly(s[..|s| - 1]);
      assert s[..|s| - 1] + [s[|s| - 1]] == s;
    }
  }

  /** A trailing '/' does not change the location a path names. */
  lemma ResolveTrailingSlash(p: string)
    ensures Resolve(p + "/") == Resolve(p)
  {
    ResolveJoin(p, "");
    assert p + "/" + "" == p + "/";
  }

  /** The path ends with '/'. */
  predicate EndsWithSlash(p: string) {
    |p| > 0 && p[|p| - 1] == '/'
  }

  /** The normalisation `validatePath` applies: append '/' unless the path already ends with one. */
  function WithTrailingSlash(p: string): (q: string)
    ensures EndsWithSlash(q)
    ensures |q| == |p| || |q| == |p| + 1
    ensures q[..|p|] == p
    ensures Resolve(q) == Resolve(p)
  {
    if EndsWithSlash(p) then p
    else
      ResolveTrailingSlash(p);
      p + "/"
  }

  /** Normalising twice is normalising once. */
  lemma WithTrailingSlashIdempotent(p: string)
    ensures WithTrailingSlash(WithTrailingSlash(p)) == WithTrailingSlash(p)
  {
  }
}
