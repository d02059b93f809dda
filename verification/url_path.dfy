/**
  The disk-cache file name of an image URL: the last piece of
  `url.split(separator: "/")`, or "default" when there is none.
  Swift's `split` drops empty pieces, so the name is the last NON-EMPTY
  run of characters between slashes.
 */
module UrlPath {

  /** Name of the cache sub-directory holding the image files. */
  const CacheDirectory: string := "images"

  /** File name used when the URL has no non-empty segment. */
  const FallbackName: string := "default"

  predicate NoSlash(s: string) {
    forall i :: 0 <= i < |s| ==> s[i] != '/'
  }

  predicate AllSlashes(s: string) {
    forall i :: 0 <= i < |s| ==> s[i] == '/'
  }

  /** A piece of a split: non-empty and free of separators. */
  predicate Piece(s: string) {
    s != [] && NoSlash(s)
  }

  predicate Pieces(ps: seq<string>) {
    forall i :: 0 <= i < |ps| ==> Piece(ps[i])
  }

  /**
    Scans `s` left to right; `cur` is the piece being built and `acc` the
    pieces already closed. A separator closes `cur` unless it is empty.
   */
  function SplitFrom(s: string, cur: string, acc: seq<string>): (parts: seq<string>)
    requires NoSlash(cur)
    requires Pieces(acc)
    ensures Pieces(parts)
    ensures |acc| <= |parts| && parts[..|acc|] == acc
    decreases |s|
  {
    if s == [] then
      (if cur == [] then acc else acc + [cur])
    else if s[0] == '/' then
      SplitFrom(s[1..], [], if cur == [] then acc else acc + [cur])
    else
      SplitFrom(s[1..], cur + [s[0]], acc)
  }

  /** `s.split(separator: "/")` with Swift's default options. */
  function Split(s: string): (parts: seq<string>)
    ensures Pieces(parts)
  {
    SplitFrom(s, [], [])
  }

  /** `url.split(separator: "/").last ?? "default"`. */
  function FileName(url: string): (name: string)
    ensures Piece(name)
  {
    var parts := Split(url);
    if parts == [] then FallbackName else parts[|parts| - 1]
  }

  /**
    The cache-relative path `images/<file name>` of the URL's image file: a
    single file directly inside the images directory.
   */
  function RelativePath(url: string): (path: string)
    ensures |path| > |CacheDirectory| + 1
    ensures path[..|CacheDirectory|] == CacheDirectory && path[|CacheDirectory|] == '/'
    ensures Piece(path[|CacheDirectory| + 1..])
  {
    CacheDirectory + "/" + FileName(url)
  }

  lemma RelativePathInjective(u: string, v: string)
    ensures RelativePath(u) == RelativePath(v) <==> FileName(u) == FileName(v)
  {
    var p := CacheDirectory + "/";
    if RelativePath(u) == RelativePath(v) {
      assert FileName(u) == RelativePath(u)[|p|..];
      assert FileName(v) == RelativePath(v)[|p|..];
    }
  }

  /** A run of non-separators only grows the current piece. */
  lemma {:induction false} SplitFromPlain(x: string, cur: string, acc: seq<string>)
    requires NoSlash(x) && NoSlash(cur) && Pieces(acc)
    requires cur + x != []
    ensures SplitFrom(x, cur, acc) == acc + [cur + x]
    decreases |x|
  {
    if x == [] {
      assert cur + x == cur;
    } else {
      assert x[0] != '/';
      SplitFromPlain(x[1..], cur + [x[0]], acc);
      assert (cur + [x[0]]) + x[1..] == cur + x;
    }
  }

  /** Whatever precedes a final separator, the piece after it comes last. */
  lemma {:induction false} SplitFromLast(p: string, x: string, cur: string, acc: seq<string>)
    requires Piece(x) && NoSlash(cur) && Pieces(acc)
    requires p != [] && p[|p| - 1] == '/'
    ensures var parts := SplitFrom(p + x, cur, acc); parts != [] && parts[|parts| - 1] == x
    decreases |p|
  {
    var s := p + x;
    assert s[1..] == p[1..] + x;
    var acc' := if cur == [] then acc else acc + [cur];
    if |p| == 1 {
      assert s[0] == '/';
      assert s[1..] == x;
      SplitFromPlain(x, [], acc');
      assert [] + x == x;
    } else if s[0] == '/' {
      SplitFromLast(p[1..], x, [], acc');
    } else {
      SplitFromLast(p[1..], x, cur + [s[0]], acc);
    }
  }

  /**
    The file name of `p + x`, where `x` is a segment and `p` is empty or ends
    with a separator, is `x`, whatever `p` holds.
   */
  lemma FileNameOfLastSegment(p: string, x: string)
    requires Piece(x)
    requires p == [] || p[|p| - 1] == '/'
    ensures FileName(p + x) == x
  {
    if p == [] {
      assert p + x == x;
      SplitFromPlain(x, [], []);
      assert [] + x == x;
    } else {
      SplitFromLast(p, x, [], []);
    }
  }

  /** A trailing separator does not change the split. */
  lemma {:induction false} SplitFromTrailingSlash(s: string, cur: string, acc: seq<string>)
    requires NoSlash(cur) && Pieces(acc)
    ensures SplitFrom(s + "/", cur, acc) == SplitFrom(s, cur, acc)
    decreases |s|
  {
    if s == [] {
      assert s + "/" == "/";
      assert ("/")[1..] == [];
    } else {
      assert (s + "/")[0] == s[0];
      assert (s + "/")[1..] == s[1..] + "/";
      if s[0] == '/' {
        SplitFromTrailingSlash(s[1..], [], if cur == [] then acc else acc + [cur]);
      } else {
        SplitFromTrailingSlash(s[1..], cur + [s[0]], acc);
      }
    }
  }

  lemma FileNameIgnoresTrailingSlash(url: string)
    ensures FileName(url + "/") == FileName(url)
  {
    SplitFromTrailingSlash(url, [], []);
  }

  /** The split adds nothing to `acc` exactly when nothing but separators remain. */
  lemma {:induction false} SplitFromAddsNothing(s: string, cur: string, acc: seq<string>)
    requires NoSlash(cur) && Pieces(acc)
    ensures |SplitFrom(s, cur, acc)| == |acc| <==> cur == [] && AllSlashes(s)
    decreases |s|
  {
    if s != [] {
      if s[0] == '/' {
        var acc' := if cur == [] then acc else acc + [cur];
        SplitFromAddsNothing(s[1..], [], acc');
        assert AllSlashes(s) <==> AllSlashes(s[1..]) by {
          if AllSlashes(s[1..]) {
            forall i | 0 <= i < |s| ensures s[i] == '/' {
              if i > 0 { assert s[i] == s[1..][i - 1]; }
            }
          }
        }
      } else {
        SplitFromAddsNothing(s[1..], cur + [s[0]], acc);
        assert !AllSlashes(s);
      }
    }
  }

  /** The fallback name is used exactly for URLs made of separators only. */
  lemma FallbackIffOnlySlashes(url: string)
    ensures Split(url) == [] <==> AllSlashes(url)
  {
    SplitFromAddsNothing(url, [], []);
  }

  /**
    Two URLs that differ only before their last segment share one file name:
    the disk tier cannot tell them apart.
   */
  lemma SharedFileName(p1: string, p2: string, x: string)
    requires Piece(x)
    requires p1 == [] || p1[|p1| - 1] == '/'
    requires p2 == [] || p2[|p2| - 1] == '/'
    ensures FileName(p1 + x) == FileName(p2 + x) == x
    ensures RelativePath(p1 + x) == RelativePath(p2 + x)
  {
    FileNameOfLastSegment(p1, x);
    FileNameOfLastSegment(p2, x);
  }
}
