/** Path handling shared by both argument handlers: the leading-tilde
    expansion and `java.io.File.getAbsolutePath` on a Unix file system. */
module Paths {
  import opened JavaStrings

  /** `filterPath`: a leading `~` is replaced by the home directory (the
      `user.home` system property, passed in); any other path is returned as is. */
  function FilterPath(path: string, home: string): (r: string)
    ensures StartsWith(path, "~") ==> StartsWith(r, home) && r[|home|..] == path[1..]
    ensures !StartsWith(path, "~") ==> r == path
  {
    if StartsWith(path, "~") then home + path[1..] else path
  }

  /** Only the first character is ever replaced: the rest of the path is kept
      verbatim at the end of the result, and a path without a leading tilde is
      a fixed point. */
  lemma FilterPathKeepsTail(path: string, home: string)
    requires 0 < |path|
    ensures var r := FilterPath(path, home);
      |path| - 1 <= |r| && r[|r| - (|path| - 1)..] == path[1..]
  {
  }

  /** Expanding twice is expanding once, as long as the home directory is not
      empty and does not itself start with a tilde. */
  lemma FilterPathIdempotent(path: string, home: string)
    requires 0 < |home| && home[0] != '~'
    ensures FilterPath(FilterPath(path, home), home) == FilterPath(path, home)
  {
    if StartsWith(path, "~") {
      var r := home + path[1..];
      assert r[0] == home[0];
    }
  }

  /** The path with every `/` removed: what normalisation must not change. */
  function Unslashed(s: string): string {
    if s == [] then [] else (if s[0] == '/' then [] else [s[0]]) + Unslashed(s[1..])
  }

  lemma {:induction false} UnslashedAppend(x: string, y: string)
    ensures Unslashed(x + y) == Unslashed(x) + Unslashed(y)
  {
    if x != [] {
      assert (x + y)[0] == x[0];
      assert (x + y)[1..] == x[1..] + y;
      UnslashedAppend(x[1..], y);
    } else {
      assert x + y == y;
    }
  }

  /** The form `java.io.File` keeps a path in on Unix: no `//`, and no trailing
      `/` unless the path is the root itself. */
  predicate Normal(p: string) {
    NoDoubleSlash(p) && (|p| > 1 ==> p[|p| - 1] != '/')
  }

  predicate NoDoubleSlash(p: string) {
    forall i :: 0 <= i < |p| - 1 ==> !(p[i] == '/' && p[i + 1] == '/')
  }

  /** Every run of `/` shortened to one `/`. */
  function Collapse(s: string): (r: string)
    ensures |r| <= |s| && (r == [] <==> s == [])
    ensures s != [] ==> r[0] == s[0] && r[|r| - 1] == s[|s| - 1]
    decreases |s|
  {
    if |s| <= 1 then s
    else if s[0] == '/' && s[1] == '/' then Collapse(s[1..])
    else [s[0]] + Collapse(s[1..])
  }

  lemma {:induction false} CollapseNoDoubles(s: string)
    ensures NoDoubleSlash(Collapse(s))
    decreases |s|
  {
    if |s| > 1 {
      CollapseNoDoubles(s[1..]);
      if !(s[0] == '/' && s[1] == '/') {
        var t := Collapse(s[1..]);
        var r := [s[0]] + t;
        assert Collapse(s) == r;
        forall i | 0 <= i < |r| - 1
          ensures !(r[i] == '/' && r[i + 1] == '/')
        {
          if i > 0 {
            assert r[i] == t[i - 1] && r[i + 1] == t[i];
            assert 0 <= i - 1 < |t| - 1;
            assert !(t[i - 1] == '/' && t[i] == '/');
          } else {
            assert r[1] == t[0] == s[1];
            assert !(r[0] == '/' && r[1] == '/');
          }
        }
      } else {
        assert Collapse(s) == Collapse(s[1..]);
      }
    }
  }

  lemma {:induction false} CollapseUnslashed(s: string)
    ensures Unslashed(Collapse(s)) == Unslashed(s)
    decreases |s|
  {
    if |s| > 1 {
      CollapseUnslashed(s[1..]);
      if !(s[0] == '/' && s[1] == '/') {
        var t := Collapse(s[1..]);
        assert Collapse(s) == [s[0]] + t;
        UnslashedAppend([s[0]], t);
        UnslashedAppend([s[0]], s[1..]);
        assert [s[0]] + s[1..] == s;
      } else {
        assert Unslashed(s) == Unslashed(s[1..]);
      }
    }
  }

  lemma {:induction false} CollapseKeepsSingles(s: string)
    ensures NoDoubleSlash(s) ==> Collapse(s) == s
    decreases |s|
  {
    if |s| > 1 && NoDoubleSlash(s) {
      var t := s[1..];
      assert NoDoubleSlash(t) by {
        forall i | 0 <= i < |t| - 1 ensures !(t[i] == '/' && t[i + 1] == '/') {
          assert t[i] == s[i + 1] && t[i + 1] == s[i + 2];
        }
      }
      CollapseKeepsSingles(t);
      assert [s[0]] + t == s;
    }
  }

  /** The parts of a path between `/` characters, empty ones included:
      "/a//b" splits into "", "a", "" and "b". */
  function Split(s: string): (parts: seq<string>)
    ensures |parts| >= 1
    decreases |s|
  {
    if s == [] then [[]]
    else
      var rest := Split(s[1..]);
      if s[0] == '/' then [[]] + rest else [[s[0]] + rest[0]] + rest[1..]
  }

  function NonEmpty(parts: seq<string>): seq<string> {
    if parts == [] then [] else (if parts[0] == [] then [] else [parts[0]]) + NonEmpty(parts[1..])
  }

  /** The names along a path: its non-empty parts between `/` characters.
      "/tmp//out/" and "tmp/out" both have the segments "tmp" and "out". */
  function Segments(s: string): seq<string> {
    NonEmpty(Split(s))
  }

  lemma {:induction false} NonEmptyAppend(a: seq<string>, b: seq<string>)
    ensures NonEmpty(a + b) == NonEmpty(a) + NonEmpty(b)
  {
    if a != [] {
      assert (a + b)[0] == a[0];
      assert (a + b)[1..] == a[1..] + b;
      NonEmptyAppend(a[1..], b);
    } else {
      assert a + b == b;
    }
  }

  /** Splitting a path that starts with `/`: an empty first part. */
  lemma SplitSlash(t: string)
    ensures Split(['/'] + t) == [[]] + Split(t)
  {
    assert (['/'] + t)[0] == '/' && (['/'] + t)[1..] == t;
  }

  /** Splitting a path that starts with another character: it joins the first part. */
  lemma SplitChar(c: char, t: string)
    requires c != '/'
    ensures Split([c] + t) == [[c] + Split(t)[0]] + Split(t)[1..]
  {
    assert ([c] + t)[0] == c && ([c] + t)[1..] == t;
  }

  /** Splitting at one more `/` splits the two sides independently. */
  lemma {:induction false} SplitJoin(x: string, y: string)
    ensures Split(x + "/" + y) == Split(x) + Split(y)
    decreases |x|
  {
    if x == [] {
      assert x + "/" + y == ['/'] + y;
      SplitSlash(y);
    } else {
      var c, u := x[0], x[1..];
      SplitJoin(u, y);
      assert x + "/" + y == [c] + (u + "/" + y);
      assert x == [c] + u;
      if c == '/' {
        SplitJoinSlash(u, y);
      } else {
        SplitJoinChar(c, u, y);
      }
    }
  }

  lemma SplitJoinSlash(u: string, y: string)
    requires Split(u + "/" + y) == Split(u) + Split(y)
    ensures Split(['/'] + (u + "/" + y)) == Split(['/'] + u) + Split(y)
  {
    SplitSlash(u + "/" + y);
    SplitSlash(u);
    ConsAppend([], Split(u), Split(y));
  }

  lemma SplitJoinChar(c: char, u: string, y: string)
    requires c != '/'
    requires Split(u + "/" + y) == Split(u) + Split(y)
    ensures Split([c] + (u + "/" + y)) == Split([c] + u) + Split(y)
  {
    SplitChar(c, u + "/" + y);
    SplitChar(c, u);
    var su := Split(u);
    ReplaceHeadAppend([c] + su[0], su, Split(y));
  }

  /** Putting `h` in front of `a` and then appending `b`. */
  lemma ConsAppend<T>(h: T, a: seq<T>, b: seq<T>)
    ensures [h] + (a + b) == ([h] + a) + b
  {
  }

  /** Replacing the first element of `a` by `h` and then appending `b`. */
  lemma ReplaceHeadAppend<T>(h: T, a: seq<T>, b: seq<T>)
    requires |a| >= 1
    ensures (a + b)[0] == a[0] && [h] + (a + b)[1..] == ([h] + a[1..]) + b
  {
    assert (a + b)[1..] == a[1..] + b;
  }

  /** Joining two paths with `/` puts their segments one after the other. */
  lemma SegmentsJoin(x: string, y: string)
    ensures Segments(x + "/" + y) == Segments(x) + Segments(y)
  {
    SplitJoin(x, y);
    NonEmptyAppend(Split(x), Split(y));
  }

  /** `t` splits like `s` up to empty parts after the first. */
  predicate SameSplit(t: string, s: string) {
    Split(t)[0] == Split(s)[0] && NonEmpty(Split(t)[1..]) == NonEmpty(Split(s)[1..])
  }

  lemma SameSplitSegments(t: string, s: string)
    requires SameSplit(t, s)
    ensures Segments(t) == Segments(s)
  {
    NonEmptyAppend([Split(t)[0]], Split(t)[1..]);
    NonEmptyAppend([Split(s)[0]], Split(s)[1..]);
    assert [Split(t)[0]] + Split(t)[1..] == Split(t);
    assert [Split(s)[0]] + Split(s)[1..] == Split(s);
  }

  lemma {:induction false} CollapseSplit(s: string)
    ensures SameSplit(Collapse(s), s)
    decreases |s|
  {
    if |s| > 1 {
      var v := s[1..];
      var u := Collapse(v);
      CollapseSplit(v);
      SameSplitSegments(u, v);
      if s[0] == '/' && s[1] == '/' {
        assert Split(v)[0] == [] && Split(u)[0] == [];
        NonEmptyAppend([Split(v)[0]], Split(v)[1..]);
        assert [Split(v)[0]] + Split(v)[1..] == Split(v);
      } else {
        var c := [s[0]] + u;
        assert c[0] == s[0] && c[1..] == u;
      }
    }
  }

  /** Shortening runs of `/` keeps the segments. */
  lemma CollapseSegments(s: string)
    ensures Segments(Collapse(s)) == Segments(s)
  {
    CollapseSplit(s);
    SameSplitSegments(Collapse(s), s);
  }

  /** Dropping a trailing `/` keeps the segments. */
  lemma DropTrailingSegments(c: string)
    requires |c| > 1 && c[|c| - 1] == '/'
    ensures Segments(c[..|c| - 1]) == Segments(c)
  {
    var r := c[..|c| - 1];
    assert c == r + "/" + [];
    SegmentsJoin(r, []);
  }

  /** The parts joined back with `/`. */
  function Join(parts: seq<string>): string
    requires |parts| >= 1
    decreases |parts|
  {
    if |parts| == 1 then parts[0] else parts[0] + "/" + Join(parts[1..])
  }

  /** Splitting loses nothing: joining the parts gives the path back. */
  lemma {:induction false} JoinSplit(s: string)
    ensures Join(Split(s)) == s
    decreases |s|
  {
    if s != [] {
      JoinSplit(s[1..]);
      var r := Split(s[1..]);
      assert s == [s[0]] + s[1..];
      if s[0] == '/' {
        assert ([[]] + r)[1..] == r;
      } else {
        var p := [[s[0]] + r[0]] + r[1..];
        assert p[0] == [s[0]] + r[0] && p[1..] == r[1..];
        if |r| > 1 {
          assert Join(r) == r[0] + "/" + Join(r[1..]);
        }
      }
    }
  }

  /** In a path without `//` that does not end in `/`, every part after the
      first is a name, and the first is empty exactly when the path is
      absolute. */
  lemma {:induction false} SplitWithoutEmptyParts(x: string)
    requires x != [] && x[|x| - 1] != '/'
    requires NoDoubleSlash(x)
    ensures forall k :: 1 <= k < |Split(x)| ==> Split(x)[k] != []
    ensures Split(x)[0] == [] <==> x[0] == '/'
    decreases |x|
  {
    var t := x[1..];
    if t == [] {
      assert x[0] != '/' && Split(t) == [[]];
      assert Split(x) == [[x[0]] + []] + [];
    } else {
      assert NoDoubleSlash(t) by {
        forall i | 0 <= i < |t| - 1 ensures !(t[i] == '/' && t[i + 1] == '/') {
          assert t[i] == x[i + 1] && t[i + 1] == x[i + 2];
        }
      }
      assert t[|t| - 1] == x[|x| - 1];
      SplitWithoutEmptyParts(t);
      if x[0] == '/' {
        assert t[0] == x[1];
      }
    }
  }

  lemma {:induction false} NonEmptyKeepsNames(parts: seq<string>)
    requires forall k :: 0 <= k < |parts| ==> parts[k] != []
    ensures NonEmpty(parts) == parts
  {
    if parts != [] {
      NonEmptyKeepsNames(parts[1..]);
    }
  }

  /** The path in normal form with the given segments. */
  function Rebuild(segments: seq<string>, absolute: bool): string {
    if segments == [] then (if absolute then "/" else [])
    else if absolute then Join([[]] + segments)
    else Join(segments)
  }

  /** A normal path is determined by its segments and by whether it is
      absolute; so `Normalize`'s contract fixes its result. */
  lemma NormalIsRebuilt(x: string)
    requires Normal(x)
    ensures x == Rebuild(Segments(x), StartsWith(x, "/"))
  {
    if x == [] {
      assert Segments(x) == [];
    } else if x == "/" {
      assert Split(x) == [[], []];
    } else {
      SplitWithoutEmptyParts(x);
      JoinSplit(x);
      var sp := Split(x);
      if x[0] == '/' {
        assert StartsWith(x, "/");
        AbsoluteSegments(sp);
      } else {
        assert !StartsWith(x, "/");
        NonEmptyKeepsNames(sp);
        assert Segments(x) == sp;
      }
    }
  }

  lemma AbsoluteSegments(sp: seq<string>)
    requires |sp| >= 2 && sp[0] == [] && forall k :: 1 <= k < |sp| ==> sp[k] != []
    ensures NonEmpty(sp) == sp[1..] && sp == [[]] + sp[1..] && sp[1..] != []
  {
    NonEmptyKeepsNames(sp[1..]);
  }

  lemma NormalDetermined(x: string, y: string)
    requires Normal(x) && Normal(y)
    requires Segments(x) == Segments(y) && (StartsWith(x, "/") <==> StartsWith(y, "/"))
    ensures x == y
  {
    NormalIsRebuilt(x);
    NormalIsRebuilt(y);
  }

  /** The normalisation `new File(path)` applies on Unix: runs of `/` become
      one, and a trailing `/` is dropped unless the path is `/`. Only slashes
      change, an absolute path stays absolute, and a normal path is kept. */
  function Normalize(s: string): (r: string)
    ensures Normal(r)
    ensures Unslashed(r) == Unslashed(s)
    ensures StartsWith(r, "/") <==> StartsWith(s, "/")
    ensures Normal(s) ==> r == s
    ensures Segments(r) == Segments(s)
  {
    var c := Collapse(s);
    NormalizeSteps(s);
    if |c| > 1 && c[|c| - 1] == '/' then c[..|c| - 1] else c
  }

  lemma NormalizeSteps(s: string)
    ensures var c := Collapse(s);
      var r := if |c| > 1 && c[|c| - 1] == '/' then c[..|c| - 1] else c;
      && Normal(r) && Unslashed(r) == Unslashed(s) && (StartsWith(r, "/") <==> StartsWith(s, "/"))
      && (Normal(s) ==> r == s) && Segments(r) == Segments(s)
  {
    var c := Collapse(s);
    var r := if |c| > 1 && c[|c| - 1] == '/' then c[..|c| - 1] else c;
    assert Normal(r) && Unslashed(r) == Unslashed(c) && (StartsWith(r, "/") <==> StartsWith(c, "/")) by {
      CollapseNoDoubles(s);
      DropTrailing(c);
    }
    assert Unslashed(c) == Unslashed(s) by {
      CollapseUnslashed(s);
    }
    assert StartsWith(c, "/") <==> StartsWith(s, "/") by {
      if s != [] {
        assert StartsWith(c, "/") <==> c[0] == '/';
        assert StartsWith(s, "/") <==> s[0] == '/';
      }
    }
    assert Segments(r) == Segments(c) by {
      if |c| > 1 && c[|c| - 1] == '/' {
        DropTrailingSegments(c);
      }
    }
    assert Segments(c) == Segments(s) by {
      CollapseSegments(s);
    }
    if Normal(s) {
      CollapseKeepsSingles(s);
    }
  }

  /** Dropping the trailing `/` of a path without `//` gives a normal path
      with the same non-slash characters and the same first character. */
  lemma DropTrailing(c: string)
    requires NoDoubleSlash(c)
    ensures var r := if |c| > 1 && c[|c| - 1] == '/' then c[..|c| - 1] else c;
      Normal(r) && Unslashed(r) == Unslashed(c) && (StartsWith(r, "/") <==> StartsWith(c, "/"))
  {
    if |c| > 1 && c[|c| - 1] == '/' {
      var r := c[..|c| - 1];
      assert c == r + ['/'];
      UnslashedAppend(r, ['/']);
      UnslashedRoot();
      assert r[|r| - 1] == c[|c| - 2];
      assert forall i :: 0 <= i < |r| ==> r[i] == c[i];
      assert StartsWith(r, "/") <==> r[0] == '/';
    }
  }

  /** `File.getAbsolutePath` on Unix, for `new File(path)`: the normalised path
      when it is absolute; otherwise the working directory (`user.dir`, passed
      in) joined to it by one `/`, or the working directory alone for an empty
      path. A relative path adds exactly its own non-slash characters after
      the working directory. */
  function Absolute(path: string, cwd: string): (r: string)
    ensures StartsWith(path, "/") ==> r == Normalize(path)
    ensures !StartsWith(path, "/") ==> StartsWith(r, cwd) && Unslashed(r) == Unslashed(cwd) + Unslashed(path)
    ensures !StartsWith(path, "/") ==> Segments(r) == Segments(cwd) + Segments(path)
  {
    var n := Normalize(path);
    if StartsWith(n, "/") then n
    else if n == [] then
      assert Unslashed(path) == [];
      assert Segments(path) == Segments([]) == [];
      cwd
    else
      JoinProperties(cwd, n);
      JoinSegments(cwd, n);
      if cwd == "/" then cwd + n
      else cwd + "/" + n
  }

  lemma JoinSegments(cwd: string, n: string)
    ensures var r := if cwd == "/" then cwd + n else cwd + "/" + n;
      Segments(r) == Segments(cwd) + Segments(n)
  {
    if cwd == "/" {
      SegmentsJoin([], n);
      SegmentsJoin([], []);
      assert [] + "/" + n == cwd + n;
      assert [] + "/" + [] == cwd;
    } else {
      SegmentsJoin(cwd, n);
    }
  }

  lemma JoinProperties(cwd: string, n: string)
    requires Normal(n) && n != [] && n[0] != '/'
    ensures var r := if cwd == "/" then cwd + n else cwd + "/" + n;
      && StartsWith(r, cwd)
      && Unslashed(r) == Unslashed(cwd) + Unslashed(n)
      && (Normal(cwd) && StartsWith(cwd, "/") ==> Normal(r) && StartsWith(r, "/"))
  {
    if cwd == "/" {
      var r := cwd + n;
      assert r[..|cwd|] == cwd;
      UnslashedRoot();
      UnslashedAppend(cwd, n);
      NormalRootJoin(n);
    } else {
      var r := cwd + "/" + n;
      assert r[..|cwd|] == cwd;
      UnslashedRoot();
      UnslashedAppend(cwd, "/");
      UnslashedAppend(cwd + "/", n);
      assert Unslashed(cwd + "/") == Unslashed(cwd);
      assert Unslashed(r) == Unslashed(cwd + "/") + Unslashed(n);
      if Normal(cwd) && StartsWith(cwd, "/") {
        assert |cwd| > 1;
        NormalJoin(cwd, n);
        assert r[0] == cwd[0];
      }
    }
  }

  lemma UnslashedRoot()
    ensures Unslashed("/") == []
  {
    assert "/"[1..] == [];
  }

  lemma NormalRootJoin(n: string)
    requires Normal(n) && n != [] && n[0] != '/'
    ensures Normal("/" + n)
  {
    var r := "/" + n;
    forall i | 0 <= i < |r| - 1
      ensures !(r[i] == '/' && r[i + 1] == '/')
    {
      if i > 0 {
        assert r[i] == n[i - 1] && r[i + 1] == n[i];
      }
    }
  }

  lemma NormalJoin(x: string, y: string)
    requires Normal(x) && |x| > 1 && Normal(y) && y != [] && y[0] != '/'
    ensures Normal(x + "/" + y)
  {
    var r := x + "/" + y;
    forall i | 0 <= i < |r| - 1
      ensures !(r[i] == '/' && r[i + 1] == '/')
    {
      if i + 1 < |x| {
        assert r[i] == x[i] && r[i + 1] == x[i + 1];
      } else if i + 1 == |x| {
        assert r[i] == x[|x| - 1];
      } else if i == |x| {
        assert r[i + 1] == y[0];
      } else {
        assert r[i] == y[i - |x| - 1] && r[i + 1] == y[i - |x|];
      }
    }
    assert r[|r| - 1] == y[|y| - 1];
  }

  /** For a working directory in normal absolute form (as the JVM reports
      `user.dir`), the result is in normal absolute form too. */
  lemma AbsoluteIsNormal(path: string, cwd: string)
    requires Normal(cwd) && StartsWith(cwd, "/")
    ensures Normal(Absolute(path, cwd)) && StartsWith(Absolute(path, cwd), "/")
  {
    var n := Normalize(path);
    if !StartsWith(n, "/") && n != [] {
      JoinProperties(cwd, n);
    }
  }

  /** Making an absolute path absolute again changes nothing. */
  lemma AbsoluteIdempotent(path: string, cwd: string)
    requires Normal(cwd) && StartsWith(cwd, "/")
    ensures Absolute(Absolute(path, cwd), cwd) == Absolute(path, cwd)
  {
    AbsoluteIsNormal(path, cwd);
  }

  /** `Normalize`'s contract fixes its result: any normal path with the same
      segments and the same absoluteness is that result. */
  lemma NormalizeDetermined(s: string, r: string)
    requires Normal(r) && Segments(r) == Segments(s) && (StartsWith(r, "/") <==> StartsWith(s, "/"))
    ensures r == Normalize(s)
  {
    NormalDetermined(r, Normalize(s));
  }

  /** So is `Absolute`'s for a relative path under a normal absolute working
      directory: the normal absolute path whose segments are the working
      directory's followed by the path's own. */
  lemma AbsoluteDetermined(path: string, cwd: string, r: string)
    requires Normal(cwd) && StartsWith(cwd, "/") && !StartsWith(path, "/")
    requires Normal(r) && StartsWith(r, "/") && Segments(r) == Segments(cwd) + Segments(path)
    ensures r == Absolute(path, cwd)
  {
    AbsoluteIsNormal(path, cwd);
    NormalDetermined(r, Absolute(path, cwd));
  }
}
