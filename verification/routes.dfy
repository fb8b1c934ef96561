/** `route(pattern)`: a callable that renders a concrete path from parameter
    values, plus a `.route` field holding the normalised pattern. Rendering
    maps each part to text (a literal to itself, a parameter to its value
    through `parseValue`), drops the empty texts, joins the rest with `/` and
    puts one `/` in front. */
module Routes {
  import opened Text
  import opened Values
  import opened Parts
  import opened Validate

  /** The two things `route(pattern)` keeps: the parts its call renders, and
      the `.route` field. */
  datatype Route = Route(parts: seq<Part>, route: string)

  datatype Option<T> = None | Some(value: T)

  /** The outcome of calling a route: a path, or the `TypeError` JavaScript
      raises when a parameter is read from an absent argument. */
  datatype Outcome = Path(path: string) | TypeError

  /** `route(pattern)`: every part is well formed and `.route` is the
      normalised pattern. The parts stand for the whole pattern
      (`Parts.ExtractRoundTrip`). */
  function MakeRoute(pattern: string): (r: Route)
    ensures r.route == ValidateRoute(pattern)
    ensures forall i :: 0 <= i < |r.parts| ==> WellFormed(r.parts[i])
  {
    ExtractRoundTrip(pattern);
    Route(ExtractParts(pattern), ValidateRoute(pattern))
  }

  /** `parseValue(params, name)`: `${params[name]}`. A missing name gives
      `"undefined"`; a number gives its decimal text, which is never empty;
      so the text is empty exactly when the value is the empty string. */
  function ParseValue(params: map<string, Value>, name: string): (s: string)
    ensures name !in params ==> s == "undefined"
    ensures name in params && params[name].Str? ==> s == params[name].text
    ensures name in params && params[name].Num? ==> IsIntText(s) && ParseInt(s) == params[name].n
    ensures name in params && params[name].Num? ==> s == IntString(params[name].n)
    ensures s == [] <==> name in params && params[name] == Str([])
  {
    if name in params then ValueString(params[name]) else "undefined"
  }

  /** The text one part renders to. */
  function RenderPart(part: Part, params: map<string, Value>): string
  {
    match part
    case Lit(text) => text
    case Param(name) => ParseValue(params, name)
  }

  /** The rendered texts of all parts, in pattern order, before filtering. */
  function Rendered(parts: seq<Part>, params: map<string, Value>): seq<string>
  {
    seq(|parts|, i requires 0 <= i < |parts| => RenderPart(parts[i], params))
  }

  /** The route's call with an argument (`exec`); always starts with `/`. */
  function Exec(r: Route, params: map<string, Value>): (path: string)
    ensures |path| > 0 && path[0] == '/'
  {
    "/" + Join(NonEmpty(Rendered(r.parts, params)), '/')
  }

  /** Calling a route with or without an argument. Without one, reading a
      parameter throws, so the call fails exactly when the pattern has a
      parameter part; otherwise it renders as a call with `{}` does. */
  function Call(r: Route, params: Option<map<string, Value>>): (o: Outcome)
    ensures params.Some? ==> o == Path(Exec(r, params.value))
    ensures params.None? ==> (o.TypeError? <==> HasParam(r.parts))
    ensures params.None? && !HasParam(r.parts) ==> o == Path(Exec(r, map[]))
  {
    match params
    case Some(m) => Path(Exec(r, m))
    case None => if HasParam(r.parts) then TypeError else Path(Exec(r, map[]))
  }

  /** A call reads the map only at the route's parameter names: two maps that
      agree there (on presence and value) render the same path. */
  lemma ExecReadsOnlyParams(r: Route, m1: map<string, Value>, m2: map<string, Value>)
    requires forall i :: 0 <= i < |r.parts| && r.parts[i].Param? ==>
      && (r.parts[i].name in m1 <==> r.parts[i].name in m2)
      && (r.parts[i].name in m1 ==> m1[r.parts[i].name] == m2[r.parts[i].name])
    ensures Exec(r, m1) == Exec(r, m2)
  {
    assert Rendered(r.parts, m1) == Rendered(r.parts, m2);
  }

  /** A string with no `/` has no `//`. */
  lemma SlashFreeNoDoubleSlash(s: string)
    requires '/' !in s
    ensures NoDoubleSlash(s)
  {
    forall i | 0 <= i < |s| - 1 ensures !(s[i] == '/' && s[i + 1] == '/') {
      assert s[i] in s;
    }
  }

  /** Gluing two strings without `//` makes no `//` unless the seam does. */
  lemma NoDoubleSlashConcat(a: string, b: string)
    requires NoDoubleSlash(a) && NoDoubleSlash(b)
    requires !(EndsWithSlash(a) && |b| > 0 && b[0] == '/')
    ensures NoDoubleSlash(a + b)
  {
    var s := a + b;
    forall i | 0 <= i < |s| - 1 ensures !(s[i] == '/' && s[i + 1] == '/') {
      if i + 1 < |a| {
        assert s[i] == a[i] && s[i + 1] == a[i + 1];
      } else if i >= |a| {
        assert s[i] == b[i - |a|] && s[i + 1] == b[i + 1 - |a|];
      } else {
        assert s[i] == a[|a| - 1] && s[i + 1] == b[0];
      }
    }
  }

  /** Joining non-empty `/`-free pieces with `/` gives a string with no `//`
      that neither starts nor ends with `/`. */
  lemma {:induction false} JoinIsNormal(pieces: seq<string>)
    requires |pieces| > 0
    requires forall i :: 0 <= i < |pieces| ==> pieces[i] != [] && '/' !in pieces[i]
    ensures var j := Join(pieces, '/');
      |j| > 0 && j[0] != '/' && !EndsWithSlash(j) && NoDoubleSlash(j)
    decreases |pieces|
  {
    var p := pieces[0];
    assert p[0] in p && p[|p| - 1] in p;
    SlashFreeNoDoubleSlash(p);
    if |pieces| > 1 {
      var rest := Join(pieces[1..], '/');
      JoinIsNormal(pieces[1..]);
      NoDoubleSlashConcat(p, ['/']);
      NoDoubleSlashConcat(p + ['/'], rest);
      assert Join(pieces, '/') == (p + ['/']) + rest;
    }
  }

  /** The non-empty rendered texts have no `/` when no rendered text has. */
  lemma NonEmptySlashFree(xs: seq<string>)
    requires forall i :: 0 <= i < |xs| ==> '/' !in xs[i]
    ensures forall i :: 0 <= i < |NonEmpty(xs)| ==> NonEmpty(xs)[i] != [] && '/' !in NonEmpty(xs)[i]
  {
    NonEmptyFilters(xs);
    forall i | 0 <= i < |NonEmpty(xs)| ensures '/' !in NonEmpty(xs)[i] {
      assert NonEmpty(xs)[i] in NonEmpty(xs);
      var j :| 0 <= j < |xs| && xs[j] == NonEmpty(xs)[i];
    }
  }

  /** When no value contains `/`, the rendered path splits back into exactly
      the non-empty rendered texts in pattern order, has no `//`, does not end
      in `/` unless it is `/`, and so is already normalised. */
  lemma ExecPieces(r: Route, params: map<string, Value>)
    requires forall i :: 0 <= i < |r.parts| ==> '/' !in Rendered(r.parts, params)[i]
    ensures Segments(Exec(r, params)) == NonEmpty(Rendered(r.parts, params))
    ensures NoDoubleSlash(Exec(r, params))
    ensures |Exec(r, params)| > 1 ==> !EndsWithSlash(Exec(r, params))
    ensures ValidateRoute(Exec(r, params)) == Exec(r, params)
  {
    var kept := NonEmpty(Rendered(r.parts, params));
    var path := Exec(r, params);
    NonEmptySlashFree(Rendered(r.parts, params));
    NonEmptyFilters(kept);
    if |kept| == 0 {
      assert path == "/";
      SplitCons('/', [], '/');
      assert Split(path, '/') == [[], []];
      assert NonEmpty([[], []]) == [];
    } else {
      var j := Join(kept, '/');
      assert path == ['/'] + j;
      JoinIsNormal(kept);
      SplitJoin(kept, '/');
      SplitCons('/', j, '/');
      assert ([[]] + kept)[1..] == kept;
      assert Segments(path) == NonEmpty(kept);
      NoDoubleSlashConcat(['/'], j);
    }
    ValidateRouteFixed(path);
  }

  /** When no string value contains `/`, no rendered text of a route does:
      literals have none, numbers render as digits, and a missing name renders
      as `undefined`. So the path is already normalised and its non-empty
      pieces are the non-empty rendered texts. */
  lemma ExecWithPlainValues(pattern: string, params: map<string, Value>)
    requires forall k :: k in params && params[k].Str? ==> '/' !in params[k].text
    ensures Segments(Exec(MakeRoute(pattern), params)) == NonEmpty(Rendered(MakeRoute(pattern).parts, params))
    ensures NoDoubleSlash(Exec(MakeRoute(pattern), params))
    ensures ValidateRoute(Exec(MakeRoute(pattern), params)) == Exec(MakeRoute(pattern), params)
  {
    var r := MakeRoute(pattern);
    var texts := Rendered(r.parts, params);
    forall i | 0 <= i < |r.parts| ensures '/' !in texts[i] {
      assert WellFormed(r.parts[i]);
      match r.parts[i]
      case Lit(_) =>
      case Param(name) =>
        if name !in params {
          assert texts[i] == "undefined";
        } else if params[name].Num? {
          IntTextIsPlain(texts[i]);
        }
    }
    ExecPieces(r, params);
  }

  /** An independent description of a call: substitute each parameter's text
      into the pattern's pieces, join them with `/` behind a leading `/`, and
      normalise. This is the call's result whenever no rendered text contains
      `/` or a line terminator. */
  lemma ExecIsNormalisedSubstitution(r: Route, params: map<string, Value>)
    requires forall i :: 0 <= i < |r.parts| ==>
      '/' !in Rendered(r.parts, params)[i] && NoLineTerminator(Rendered(r.parts, params)[i])
    ensures Exec(r, params) == ValidateRoute("/" + Join(Rendered(r.parts, params), '/'))
  {
    var texts := Rendered(r.parts, params);
    if |texts| > 0 {
      var j := Join(texts, '/');
      var q := ['/'] + j;
      assert NoLineTerminator(q) by {
        forall c | c in q ensures !IsLineTerminator(c) {
          if c != '/' {
            assert c in j;
            JoinMembers(texts, '/', c);
          }
        }
      }
      ValidateRouteIsSegments(q);
      SplitJoin(texts, '/');
      SplitCons('/', j, '/');
      assert ([[]] + texts)[1..] == texts;
      assert Segments(q) == NonEmpty(texts);
    }
  }

  /** For a pattern with no parameter that starts with `/` and has no line
      terminator, every call returns exactly the normalised pattern, the
      route's `.route`. */
  lemma ExecWithoutParams(pattern: string, params: map<string, Value>)
    requires |pattern| > 0 && pattern[0] == '/'
    requires NoLineTerminator(pattern)
    requires !HasParam(ExtractParts(pattern))
    ensures Exec(MakeRoute(pattern), params) == MakeRoute(pattern).route
  {
    var parts := ExtractParts(pattern);
    var pieces := Split(pattern, '/');
    assert Rendered(parts, params) == pieces by {
      forall i | 0 <= i < |parts| ensures Rendered(parts, params)[i] == pieces[i] {
        assert !parts[i].Param?;
      }
    }
    ValidateRouteIsSegments(pattern);
  }

  /** Calling a route with no argument throws exactly when some `/`-piece of
      its pattern starts with `:`. */
  lemma CallWithoutArgument(pattern: string)
    ensures Call(MakeRoute(pattern), None).TypeError? <==>
      exists i :: 0 <= i < |Split(pattern, '/')| && StartsWithColon(Split(pattern, '/')[i])
  {
    var parts := ExtractParts(pattern);
    var pieces := Split(pattern, '/');
    assert MakeRoute(pattern).parts == parts;
    assert |parts| == |pieces|;
    if HasParam(parts) {
      var i :| 0 <= i < |parts| && parts[i].Param?;
      assert parts[i] == Classify(pieces[i]);
      assert StartsWithColon(pieces[i]);
      assert exists j :: 0 <= j < |Split(pattern, '/')| && StartsWithColon(Split(pattern, '/')[j]);
      assert Call(MakeRoute(pattern), None).TypeError?;
    } else {
      forall i | 0 <= i < |pieces| ensures !StartsWithColon(pieces[i]) {
        assert parts[i] == Classify(pieces[i]);
      }
    }
  }

  /** With no argument, a parameter-free pattern that starts with `/` (and has
      no line terminator) renders its own `.route`. */
  lemma CallWithoutParams(pattern: string)
    requires |pattern| > 0 && pattern[0] == '/'
    requires NoLineTerminator(pattern)
    requires !HasParam(ExtractParts(pattern))
    ensures Call(MakeRoute(pattern), None) == Path(MakeRoute(pattern).route)
  {
    ExecWithoutParams(pattern, map[]);
  }

  /** `route('/')`: `.route`, `p()` and `p({})` are all `/`. */
  lemma RootRouteExample()
    ensures MakeRoute("/").route == "/"
    ensures Call(MakeRoute("/"), None) == Path("/")
    ensures Call(MakeRoute("/"), Some(map[])) == Path("/")
  {
    var r := MakeRoute("/");
    assert r.parts == [Lit(""), Lit("")] by {
      assert Pieces([Lit(""), Lit("")]) == ["", ""];
      assert Join(["", ""], '/') == "/";
      UnextractRoundTrip([Lit(""), Lit("")]);
    }
    assert !HasParam(r.parts);
    assert Rendered(r.parts, map[]) == ["", ""];
  }

  /** `route('/users/:id')`: `.route` keeps `:id`, `p({id: 1})` is
      `/users/1`, and `p()` throws. */
  lemma UsersRouteExample()
    ensures MakeRoute("/users/:id").route == "/users/:id"
    ensures Exec(MakeRoute("/users/:id"), map["id" := Num(1)]) == "/users/1"
    ensures Call(MakeRoute("/users/:id"), None) == TypeError
  {
    ValidateRouteParamExample();
    ExtractUsersExample();
    UsersRender();
    var parts := [Lit(""), Lit("users"), Param("id")];
    assert parts[2].Param?;
  }

  /** Rendering the parts of `/users/:id` with `{id: 1}`. */
  lemma UsersRender()
    ensures Exec(Route([Lit(""), Lit("users"), Param("id")], "/users/:id"), map["id" := Num(1)]) == "/users/1"
  {
    var parts := [Lit(""), Lit("users"), Param("id")];
    var m := map["id" := Num(1)];
    assert IntString(1) == "1";
    assert ParseValue(m, "id") == "1";
    assert Rendered(parts, m) == ["", "users", "1"];
    assert NonEmpty(["", "users", "1"]) == ["users", "1"];
    assert Join(["users", "1"], '/') == "users/1";
  }

  /** On `/a/:n`: `0` renders as `0` and is kept, a missing name renders as
      `undefined`, and an empty string is dropped with its `/`. */
  lemma ParamValueExamples()
    ensures Exec(MakeRoute("/a/:n"), map["n" := Num(0)]) == "/a/0"
    ensures Exec(MakeRoute("/a/:n"), map[]) == "/a/undefined"
    ensures Exec(MakeRoute("/a/:n"), map["n" := Str("")]) == "/a"
  {
    assert "/" + "a" == "/a";
    assert "/a" + "/:" == "/a/:";
    assert "/a/:" + "n" == "/a/:n";
    ExtractLitParam("a", "n");
    ZeroRender(MakeRoute("/a/:n").route);
    MissingRender(MakeRoute("/a/:n").route);
    EmptyRender(MakeRoute("/a/:n").route);
  }

  /** Rendering `/a/:n` when `n` renders to the non-empty text `v`. */
  lemma ANRender(normalised: string, m: map<string, Value>)
    requires ParseValue(m, "n") != []
    ensures Exec(Route([Lit(""), Lit("a"), Param("n")], normalised), m) == "/a/" + ParseValue(m, "n")
  {
    var parts := [Lit(""), Lit("a"), Param("n")];
    var v := ParseValue(m, "n");
    var kept := ["a", v];
    assert Rendered(parts, m) == ["", "a", v];
    assert NonEmpty(["", "a", v]) == NonEmpty(kept) by {
      assert ["", "a", v][1..] == kept;
    }
    NonEmptyFilters(kept);
    assert Join(kept, '/') == "a/" + v by {
      assert kept[1..] == [v];
      assert Join(kept[1..], '/') == v;
    }
    assert "/" + ("a/" + v) == "/a/" + v;
  }

  lemma ZeroRender(normalised: string)
    ensures Exec(Route([Lit(""), Lit("a"), Param("n")], normalised), map["n" := Num(0)]) == "/a/0"
  {
    var m := map["n" := Num(0)];
    assert IntString(0) == "0";
    assert ParseValue(m, "n") == "0";
    ANRender(normalised, m);
  }

  lemma MissingRender(normalised: string)
    ensures Exec(Route([Lit(""), Lit("a"), Param("n")], normalised), map[]) == "/a/undefined"
  {
    var m: map<string, Value> := map[];
    assert "n" !in m;
    ANRender(normalised, m);
  }

  lemma EmptyRender(normalised: string)
    ensures Exec(Route([Lit(""), Lit("a"), Param("n")], normalised), map["n" := Str("")]) == "/a"
  {
    var parts := [Lit(""), Lit("a"), Param("n")];
    var m := map["n" := Str("")];
    assert ParseValue(m, "n") == "";
    assert Rendered(parts, m) == ["", "a", ""];
    assert NonEmpty(["", "a", ""]) == ["a"];
  }
}
