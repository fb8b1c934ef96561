/** `validateRoute`: the normalised pattern stored in a route's `.route`
    field. `/` stays `/`; otherwise every run of `/` becomes one `/`
    (`replace(/\/+/g, '/')`), and then one trailing `/` is removed when
    something precedes it (`replace(/^(.+)\/$/, '$1')`). In that regular
    expression `.` does not match a line terminator, so a trailing `/` stays
    when the text before it contains one; the model keeps that rule. */
module Validate {
  import opened Text

  /** The characters `.` does not match in a JavaScript regular expression
      without the `s` flag. */
  predicate IsLineTerminator(c: char)
  {
    c == '\n' || c == '\r' || c == '\U{2028}' || c == '\U{2029}'
  }

  predicate NoLineTerminator(s: string)
  {
    forall c :: c in s ==> !IsLineTerminator(c)
  }

  predicate NoDoubleSlash(s: string)
  {
    forall i :: 0 <= i < |s| - 1 ==> !(s[i] == '/' && s[i + 1] == '/')
  }

  predicate EndsWithSlash(s: string)
  {
    |s| > 0 && s[|s| - 1] == '/'
  }

  /** `s` with every `/` deleted. */
  function Unslashed(s: string): string
  {
    if |s| == 0 then []
    else (if s[0] == '/' then [] else [s[0]]) + Unslashed(s[1..])
  }

  /** The non-empty `/`-separated pieces of `s`, in order. */
  function Segments(s: string): seq<string>
  {
    NonEmpty(Split(s, '/'))
  }

  /** `replace(/\/+/g, '/')`: a `/` followed by another `/` is dropped (see
      `CollapseShape`). */
  function CollapseSlashes(s: string): string
  {
    if |s| <= 1 then s
    else if s[0] == '/' && s[1] == '/' then CollapseSlashes(s[1..])
    else [s[0]] + CollapseSlashes(s[1..])
  }

  /** Collapsing leaves no `//`, keeps the first character and every character
      other than `/` in order, and adds nothing. */
  lemma {:induction false} CollapseShape(s: string)
    ensures NoDoubleSlash(CollapseSlashes(s))
    ensures |CollapseSlashes(s)| <= |s|
    ensures |s| > 0 ==> |CollapseSlashes(s)| > 0 && CollapseSlashes(s)[0] == s[0]
    ensures Unslashed(CollapseSlashes(s)) == Unslashed(s)
    ensures forall c :: c in CollapseSlashes(s) ==> c in s
    decreases |s|
  {
    if |s| > 1 {
      CollapseShape(s[1..]);
      if !(s[0] == '/' && s[1] == '/') {
        var rest := CollapseSlashes(s[1..]);
        var r := [s[0]] + rest;
        assert r[1..] == rest;
        assert r == CollapseSlashes(s);
        forall i | 0 <= i < |r| - 1 ensures !(r[i] == '/' && r[i + 1] == '/') {
          if i > 0 {
            assert r[i] == rest[i - 1] && r[i + 1] == rest[i];
          }
        }
      }
    }
  }

  /** `replace(/^(.+)\/$/, '$1')`: drops one trailing `/` when at least one
      character precedes it and none of those is a line terminator. */
  function StripTrailingSlash(s: string): (r: string)
    ensures r == s || (|s| >= 2 && EndsWithSlash(s) && r == s[..|s| - 1])
    ensures |r| >= 2 && EndsWithSlash(r) && r == s ==> !NoLineTerminator(r[..|r| - 1])
  {
    if |s| >= 2 && EndsWithSlash(s) && NoLineTerminator(s[..|s| - 1]) then s[..|s| - 1]
    else s
  }

  function ValidateRoute(pattern: string): string
  {
    if pattern == "/" then pattern
    else StripTrailingSlash(CollapseSlashes(pattern))
  }

  /** What the normalised pattern looks like: `/` stays `/`; there is no `//`;
      a trailing `/` survives (on anything longer than `/`) only when a line
      terminator precedes it; only `/` characters are deleted, so the first
      character and every other character survive in order. */
  lemma ValidateRouteShape(pattern: string)
    ensures pattern == "/" ==> ValidateRoute(pattern) == "/"
    ensures NoDoubleSlash(ValidateRoute(pattern))
    ensures var r := ValidateRoute(pattern);
      |r| > 1 && EndsWithSlash(r) ==> !NoLineTerminator(r[..|r| - 1])
    ensures |ValidateRoute(pattern)| <= |pattern|
    ensures Unslashed(ValidateRoute(pattern)) == Unslashed(pattern)
    ensures |pattern| > 0 ==> |ValidateRoute(pattern)| > 0 && ValidateRoute(pattern)[0] == pattern[0]
    ensures forall c :: c in ValidateRoute(pattern) ==> c in pattern
  {
    if pattern != "/" {
      CollapseShape(pattern);
      var collapsed := CollapseSlashes(pattern);
      var r := StripTrailingSlash(collapsed);
      if r != collapsed {
        var n := |collapsed|;
        assert collapsed[n - 1] == '/';
        assert collapsed[n - 2] != '/';
        assert !EndsWithSlash(r);
        UnslashedDropSlash(collapsed);
      }
    }
  }

  /** Without line terminators, nothing longer than `/` keeps a trailing `/`. */
  lemma ValidateRouteNoTrailingSlash(pattern: string)
    requires NoLineTerminator(pattern)
    ensures |ValidateRoute(pattern)| > 1 ==> !EndsWithSlash(ValidateRoute(pattern))
  {
    ValidateRouteShape(pattern);
    var r := ValidateRoute(pattern);
    if |r| > 1 {
      assert NoLineTerminator(r[..|r| - 1]) by {
        forall c | c in r[..|r| - 1] ensures !IsLineTerminator(c) {
          assert c in r;
        }
      }
    }
  }

  /** Deleting a trailing `/` does not change the other characters. */
  lemma {:induction false} UnslashedDropSlash(s: string)
    requires EndsWithSlash(s)
    ensures Unslashed(s[..|s| - 1]) == Unslashed(s)
    decreases |s|
  {
    if |s| > 1 {
      assert s[..|s| - 1][1..] == s[1..][..|s[1..]| - 1];
      UnslashedDropSlash(s[1..]);
    }
  }

  /** Collapsing leaves a string without `//` unchanged. */
  lemma {:induction false} CollapseWithoutDoubleSlash(s: string)
    requires NoDoubleSlash(s)
    ensures CollapseSlashes(s) == s
    decreases |s|
  {
    if |s| > 1 {
      assert NoDoubleSlash(s[1..]) by {
        forall i | 0 <= i < |s[1..]| - 1
          ensures !(s[1..][i] == '/' && s[1..][i + 1] == '/')
        {
          assert s[1..][i] == s[i + 1] && s[1..][i + 1] == s[i + 2];
        }
      }
      CollapseWithoutDoubleSlash(s[1..]);
      assert s == [s[0]] + s[1..];
    }
  }

  /** A string without `//` that does not end in `/` (unless it is one
      character long) is its own normal form. */
  lemma ValidateRouteFixed(s: string)
    requires NoDoubleSlash(s)
    requires |s| > 1 ==> !EndsWithSlash(s)
    ensures ValidateRoute(s) == s
  {
    CollapseWithoutDoubleSlash(s);
  }

  /** `validateRoute` is idempotent. */
  lemma ValidateRouteIdempotent(pattern: string)
    ensures ValidateRoute(ValidateRoute(pattern)) == ValidateRoute(pattern)
  {
    var r := ValidateRoute(pattern);
    ValidateRouteShape(pattern);
    if r != "/" {
      CollapseShape(r);
      CollapseWithoutDoubleSlash(r);
      if |r| >= 2 && EndsWithSlash(r) {
        assert StripTrailingSlash(r) == r;
      }
    }
  }

  /** Replacing `//` by `/` keeps the non-empty pieces. */
  lemma SegmentsSkipSlash(x: string, y: string)
    ensures Segments(x + ['/', '/'] + y) == Segments(x + ['/'] + y)
  {
    assert x + ['/', '/'] + y == x + ['/'] + (['/'] + y);
    SplitAround(x, ['/'] + y, '/');
    SplitCons('/', y, '/');
    SplitAround(x, y, '/');
    var sx, sy := Split(x, '/'), Split(y, '/');
    assert sx + ([[]] + sy) == (sx + [[]]) + sy;
    NonEmptyAppend(sx + [[]], sy);
    NonEmptyAppend(sx, [[]]);
    NonEmptyAppend(sx, sy);
    assert NonEmpty(sx + [[]]) == NonEmpty(sx) by {
      assert NonEmpty([[]]) == [];
    }
  }

  /** Collapsing the tail of a string keeps its non-empty pieces. */
  lemma {:induction false} CollapseKeepsSegments(x: string, s: string)
    ensures Segments(x + CollapseSlashes(s)) == Segments(x + s)
    decreases |s|
  {
    if |s| > 1 {
      if s[0] == '/' && s[1] == '/' {
        CollapseKeepsSegments(x, s[1..]);
        CollapseDoubleStep(x, s);
      } else {
        CollapseKeepsSegments(x + [s[0]], s[1..]);
        CollapseSingleStep(x, s);
      }
    }
  }

  /** The step of `CollapseKeepsSegments` where `s` starts with `//`. */
  lemma CollapseDoubleStep(x: string, s: string)
    requires |s| > 1 && s[0] == '/' && s[1] == '/'
    requires Segments(x + CollapseSlashes(s[1..])) == Segments(x + s[1..])
    ensures Segments(x + CollapseSlashes(s)) == Segments(x + s)
  {
    DropDoubledSlash(x, s);
    CollapseDropsSlash(s);
  }

  /** Collapsing `s` that starts with `//` is collapsing `s[1..]`. */
  lemma CollapseDropsSlash(s: string)
    requires |s| > 1 && s[0] == '/' && s[1] == '/'
    ensures CollapseSlashes(s) == CollapseSlashes(s[1..])
  {
  }

  /** Deleting the first `/` of a leading `//` in the tail keeps the
      non-empty pieces. */
  lemma DropDoubledSlash(x: string, s: string)
    requires |s| > 1 && s[0] == '/' && s[1] == '/'
    ensures Segments(x + s) == Segments(x + s[1..])
  {
    var y := s[2..];
    assert x + s == x + ['/', '/'] + y by {
      assert s == ['/', '/'] + y;
    }
    assert x + s[1..] == x + ['/'] + y by {
      assert s[1..] == ['/'] + y;
    }
    SegmentsSkipSlash(x, y);
  }

  /** The step of `CollapseKeepsSegments` where `s` does not start with `//`. */
  lemma CollapseSingleStep(x: string, s: string)
    requires |s| > 1 && !(s[0] == '/' && s[1] == '/')
    requires Segments((x + [s[0]]) + CollapseSlashes(s[1..])) == Segments((x + [s[0]]) + s[1..])
    ensures Segments(x + CollapseSlashes(s)) == Segments(x + s)
  {
    assert CollapseSlashes(s) == [s[0]] + CollapseSlashes(s[1..]);
    assert x + CollapseSlashes(s) == (x + [s[0]]) + CollapseSlashes(s[1..]);
    assert x + s == (x + [s[0]]) + s[1..];
  }

  /** Dropping a trailing `/` keeps the non-empty pieces. */
  lemma StripKeepsSegments(s: string)
    ensures Segments(StripTrailingSlash(s)) == Segments(s)
  {
    var r := StripTrailingSlash(s);
    if r != s {
      assert s == r + ['/'] + [];
      SplitAround(r, [], '/');
      NonEmptyAppend(Split(r, '/'), [[]]);
      assert NonEmpty([[]]) == [];
    }
  }

  /** Normalising a pattern keeps its non-empty pieces, which are what a route
      renders. */
  lemma ValidateRouteKeepsSegments(pattern: string)
    ensures Segments(ValidateRoute(pattern)) == Segments(pattern)
  {
    if pattern != "/" {
      CollapseKeepsSegments([], pattern);
      assert [] + pattern == pattern;
      assert [] + CollapseSlashes(pattern) == CollapseSlashes(pattern);
      StripKeepsSegments(CollapseSlashes(pattern));
    }
  }

  /** `/` when the text starts with one, otherwise nothing. */
  function Lead(s: string): string
  {
    if |s| > 0 && s[0] == '/' then "/" else ""
  }

  /** In a non-empty string with no `//` that neither starts nor ends with
      `/`, every piece between separators is non-empty. */
  lemma {:induction false} PiecesNonEmpty(x: string)
    requires |x| > 0 && x[0] != '/' && !EndsWithSlash(x)
    requires NoDoubleSlash(x)
    ensures forall i :: 0 <= i < |Split(x, '/')| ==> Split(x, '/')[i] != []
    decreases |x|
  {
    var t := x[1..];
    assert x == [x[0]] + t;
    SplitCons(x[0], t, '/');
    if |t| > 0 {
      assert NoDoubleSlash(t) by {
        forall i | 0 <= i < |t| - 1 ensures !(t[i] == '/' && t[i + 1] == '/') {
          assert t[i] == x[i + 1] && t[i + 1] == x[i + 2];
        }
      }
      if t[0] == '/' {
        var u := t[1..];
        assert t == ['/'] + u;
        SplitCons('/', u, '/');
        assert |u| > 0 && u[0] == x[2];
        assert u[|u| - 1] == x[|x| - 1];
        assert NoDoubleSlash(u) by {
          forall i | 0 <= i < |u| - 1 ensures !(u[i] == '/' && u[i + 1] == '/') {
            assert u[i] == t[i + 1] && u[i + 1] == t[i + 2];
          }
        }
        PiecesNonEmpty(u);
      } else {
        PiecesNonEmpty(t);
      }
    }
  }

  /** A string in normal form is its lead `/` (if any) followed by its
      non-empty pieces joined with `/`. */
  lemma NormalFormIsSegments(c: string)
    requires NoDoubleSlash(c)
    requires |c| > 1 ==> !EndsWithSlash(c)
    ensures c == Lead(c) + Join(Segments(c), '/')
  {
    var x := if |c| > 0 && c[0] == '/' then c[1..] else c;
    assert Segments(c) == NonEmpty(Split(x, '/')) by {
      if |c| > 0 && c[0] == '/' {
        assert c == ['/'] + x;
        SplitCons('/', x, '/');
      }
    }
    assert c == Lead(c) + x;
    NonEmptyFilters(Split(x, '/'));
    if |x| == 0 {
      assert Split(x, '/') == [[]];
    } else {
      assert x[0] != '/' by {
        if c[0] == '/' {
          assert c[1] == x[0];
        }
      }
      assert !EndsWithSlash(x);
      assert NoDoubleSlash(x) by {
        if c[0] == '/' {
          forall i | 0 <= i < |x| - 1 ensures !(x[i] == '/' && x[i + 1] == '/') {
            assert x[i] == c[i + 1] && x[i + 1] == c[i + 2];
          }
        }
      }
      PiecesNonEmpty(x);
      JoinSplit(x, '/');
    }
  }

  /** Without line terminators, the normalised pattern is its lead `/` (if
      any) followed by the non-empty `/`-separated pieces of the pattern,
      joined with single `/`s. */
  lemma ValidateRouteIsSegments(pattern: string)
    requires NoLineTerminator(pattern)
    ensures ValidateRoute(pattern) == Lead(pattern) + Join(Segments(pattern), '/')
  {
    var r := ValidateRoute(pattern);
    ValidateRouteShape(pattern);
    ValidateRouteNoTrailingSlash(pattern);
    ValidateRouteKeepsSegments(pattern);
    NormalFormIsSegments(r);
    assert Lead(r) == Lead(pattern);
  }

  /** `/` stays `/`, and `//` collapses to it. */
  lemma ValidateRouteRootExamples()
    ensures ValidateRoute("/") == "/"
    ensures ValidateRoute("//") == "/"
  {
    assert CollapseSlashes("//") == CollapseSlashes("/");
  }

  /** A doubled `/` collapses. */
  lemma ValidateRouteCollapseExample()
    ensures ValidateRoute("/a//b") == "/a/b"
  {
    var s := "/a//b";
    assert s[1..] == "a//b" && s[1..][1..] == "//b" && s[1..][1..][1..] == "/b";
    assert CollapseSlashes("/b") == "/b";
    assert CollapseSlashes("//b") == "/b";
    assert CollapseSlashes("a//b") == "a/b";
    assert CollapseSlashes(s) == "/a/b";
  }

  /** One trailing `/` goes. */
  lemma ValidateRouteTrailingExample()
    ensures ValidateRoute("/a/") == "/a"
  {
    var s := "/a/";
    assert NoDoubleSlash(s);
    CollapseWithoutDoubleSlash(s);
    assert s[..2] == "/a";
    assert NoLineTerminator(s[..2]);
  }

  /** Parameters are kept verbatim in the normalised pattern. */
  lemma ValidateRouteParamExample()
    ensures ValidateRoute("/users/:id") == "/users/:id"
  {
    var s := "/users/:id";
    assert NoDoubleSlash(s);
    ValidateRouteFixed(s);
  }

  /** A trailing `/` after a line terminator survives. */
  lemma ValidateRouteLineTerminatorExample()
    ensures ValidateRoute("/a\n/") == "/a\n/"
  {
    var s := "/a\n/";
    assert NoDoubleSlash(s);
    CollapseWithoutDoubleSlash(s);
    assert !NoLineTerminator(s[..3]) by {
      assert s[..3][2] in s[..3];
    }
  }
}
