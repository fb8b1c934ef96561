/** `createRoutes(config)`: turns a nested configuration object into an object
    of the same shape, each string leaf becoming `route(leaf)` and each nested
    object becoming `createRoutes` of it. The configuration is a closed tree
    here: a leaf is a pattern, a branch maps keys to subtrees. */
module Namespace {
  import opened Text
  import opened Parts
  import opened Validate
  import opened Values
  import opened Routes

  datatype Config = Leaf(pattern: string) | Branch(entries: map<string, Config>)

  datatype Router = Endpoint(target: Route) | Group(entries: map<string, Router>)

  /** `typeof value === 'string' ? route(value) : createRoutes(value)`. */
  function Build(c: Config): Router
    decreases c, 1
  {
    match c
    case Leaf(pattern) => Endpoint(MakeRoute(pattern))
    case Branch(entries) => Group(CreateRoutes(entries))
  }

  /** `createRoutes(config)`: the same keys, each mapped to what `Build` makes
      of its value (see `CreateRoutesShape`). */
  function CreateRoutes(config: map<string, Config>): (r: map<string, Router>)
    ensures r.Keys == config.Keys
    decreases Branch(config), 0
  {
    map k | k in config :: Build(config[k])
  }

  /** `r` has the shape of `c`: a leaf became the route of its pattern, and a
      branch became a group with exactly the same keys, each of the same
      shape as the subtree it came from. */
  ghost predicate SameShape(c: Config, r: Router)
    decreases c
  {
    match c
    case Leaf(pattern) => r == Endpoint(MakeRoute(pattern))
    case Branch(entries) =>
      && r.Group?
      && r.entries.Keys == entries.Keys
      && forall k :: k in entries ==> SameShape(entries[k], r.entries[k])
  }

  /** Every level of the output has the input's keys; every leaf is the route
      of its pattern (so its `.route` is the normalised pattern); nothing else
      is added. */
  lemma {:induction false} BuildShape(c: Config)
    ensures SameShape(c, Build(c))
    decreases c
  {
    match c
    case Leaf(_) =>
    case Branch(entries) =>
      forall k | k in entries
        ensures SameShape(entries[k], Build(c).entries[k])
      {
        BuildShape(entries[k]);
      }
  }

  /** The top-level form of `BuildShape`. */
  lemma CreateRoutesShape(config: map<string, Config>)
    ensures SameShape(Branch(config), Group(CreateRoutes(config)))
  {
    BuildShape(Branch(config));
  }

  /** A leaf's `.route` is its normalised pattern. */
  lemma LeafRoute(config: map<string, Config>, k: string)
    requires k in config && config[k].Leaf?
    ensures CreateRoutes(config)[k].Endpoint?
    ensures CreateRoutes(config)[k].target.route == ValidateRoute(config[k].pattern)
  {
  }

  /** The configuration a router was built from: each route gives back its
      pattern from its parts. */
  function Erase(r: Router): Config
  {
    match r
    case Endpoint(target) => Leaf(Unextract(target.parts))
    case Group(entries) => Branch(map k | k in entries :: Erase(entries[k]))
  }

  /** Building loses nothing: erasing the built router gives back the
      configuration. */
  lemma {:induction false} EraseBuild(c: Config)
    ensures Erase(Build(c)) == c
    decreases c
  {
    match c
    case Leaf(pattern) =>
      ExtractRoundTrip(pattern);
    case Branch(entries) =>
      forall k | k in entries
        ensures Erase(Build(c).entries[k]) == entries[k]
      {
        EraseBuild(entries[k]);
      }
  }

  /** The `keys.reduce((acc, key) => ({...acc, [key]: f(config[key])}), {})`
      loop of `createRoutes`, over the keys in the order `Object.keys` lists
      them: whatever that order is, it builds the object that maps every key
      of `config`, and nothing else, to `f` of its value. */
  method SpreadKeys<V>(config: map<string, Config>, keys: seq<string>, f: Config -> V)
    returns (acc: map<string, V>)
    requires forall k :: k in config <==> k in keys
    ensures acc.Keys == config.Keys
    ensures forall k :: k in config ==> acc[k] == f(config[k])
  {
    acc := map[];
    var n := 0;
    while n < |keys|
      invariant 0 <= n <= |keys|
      invariant forall k :: k in acc <==> k in keys[..n]
      invariant forall k :: k in acc ==> k in config && acc[k] == f(config[k])
    {
      var key := keys[n];
      acc := acc[key := f(config[key])];
      assert keys[..n + 1] == keys[..n] + [key];
      n := n + 1;
    }
    assert keys[..n] == keys;
  }

  /** The top-level `reduce` of `createRoutes`, with `Build` as the callback:
      the result is `CreateRoutes(config)` whatever the key order. */
  method CreateRoutesByFold(config: map<string, Config>, keys: seq<string>)
    returns (routes: map<string, Router>)
    requires forall k :: k in config <==> k in keys
    ensures routes == CreateRoutes(config)
  {
    routes := SpreadKeys(config, keys, Build);
  }

  /** `createRoutes` as the source computes it at every level: a string leaf
      becomes its route, and a nested object is built by the `reduce` loop,
      recursing into each value. The loop takes the keys in an arbitrary
      order (each step picks any key not yet visited), so whatever order
      `Object.keys` lists them in, the result is `Build(c)`. */
  method BuildByFold(c: Config) returns (r: Router)
    ensures r == Build(c)
    decreases c
  {
    match c
    case Leaf(pattern) =>
      r := Endpoint(MakeRoute(pattern));
    case Branch(entries) =>
      var acc: map<string, Router> := map[];
      var left := entries.Keys;
      while left != {}
        invariant left <= entries.Keys
        invariant forall k :: k in acc <==> k in entries && k !in left
        invariant forall k :: k in acc ==> acc[k] == Build(entries[k])
        decreases left
      {
        var key :| key in left;
        var sub := BuildByFold(entries[key]);
        acc := acc[key := sub];
        left := left - {key};
      }
      r := Group(acc);
  }

  /** `route('/users')` called with `{}` gives `/users`. */
  lemma UsersListExample()
    ensures Exec(MakeRoute("/users"), map[]) == "/users"
  {
    var parts := [Lit(""), Lit("users")];
    assert ExtractParts("/users") == parts by {
      assert Pieces(parts) == ["", "users"];
      assert Join(["", "users"], '/') == "/users";
      UnextractRoundTrip(parts);
    }
    UsersListRender(ValidateRoute("/users"));
  }

  /** Rendering the parts of `/users` with `{}`. */
  lemma UsersListRender(normalised: string)
    ensures Exec(Route([Lit(""), Lit("users")], normalised), map[]) == "/users"
  {
    var parts := [Lit(""), Lit("users")];
    var m: map<string, Value> := map[];
    assert Rendered(parts, m) == ["", "users"];
    assert NonEmpty(["", "users"]) == ["users"];
  }

  /** A two-entry level with leaves `show` and `list`. */
  lemma TwoLeaves(show: string, list: string)
    ensures var built := CreateRoutes(map["show" := Leaf(show), "list" := Leaf(list)]);
      && "show" in built && "list" in built
      && built["show"] == Endpoint(MakeRoute(show))
      && built["list"] == Endpoint(MakeRoute(list))
  {
    var inner := map["show" := Leaf(show), "list" := Leaf(list)];
    assert "show" in inner && inner["show"] == Leaf(show);
    assert "list" in inner && inner["list"] == Leaf(list);
  }

  /** The inner level of `UsersNamespaceExample`. */
  lemma UsersEntriesExample()
    ensures var built := CreateRoutes(map["show" := Leaf("/users/:id"), "list" := Leaf("/users")]);
      && "show" in built && "list" in built
      && built["show"].Endpoint? && built["show"].target.route == "/users/:id"
      && built["list"].Endpoint? && Exec(built["list"].target, map[]) == "/users"
  {
    TwoLeaves("/users/:id", "/users");
    UsersRouteExample();
    UsersListExample();
  }

  /** `createRoutes({users: {show: '/users/:id', list: '/users'}})`:
      `users.show.route` is `/users/:id` and `users.list({})` is `/users`. */
  lemma UsersNamespaceExample()
    ensures var routes := CreateRoutes(map["users" := Branch(map["show" := Leaf("/users/:id"), "list" := Leaf("/users")])]);
      && routes["users"].Group?
      && routes["users"].entries["show"].target.route == "/users/:id"
      && Exec(routes["users"].entries["list"].target, map[]) == "/users"
  {
    var inner := map["show" := Leaf("/users/:id"), "list" := Leaf("/users")];
    var outer := map["users" := Branch(inner)];
    assert CreateRoutes(outer)["users"] == Group(CreateRoutes(inner)) by {
      assert "users" in outer && outer["users"] == Branch(inner);
    }
    UsersEntriesExample();
  }
}
