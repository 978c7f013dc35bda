/** The router: routes compiled from a configuration, sorted, and searched for the first match. */
module Router {
  import opened Wrappers
  import opened WeightedSplit
  import opened Routing
  import StableSort

  datatype RouteResult = RouteResult(routeName: string, clusterName: string, fallback: seq<string>)

  function Priorities(routes: seq<RouteConfig>): seq<int> {
    seq(|routes|, i requires 0 <= i < |routes| => routes[i].priority)
  }

  predicate Matching(env: Env, routes: seq<RouteConfig>, ctx: Context, i: nat) {
    i < |routes| && RouteMatches(env, routes[i].match_, ctx)
  }

  /** The matching route of least priority number, and then of least position in the configuration. */
  predicate Best(env: Env, routes: seq<RouteConfig>, ctx: Context, i: nat) {
    && Matching(env, routes, ctx, i)
    && forall j: nat | j < |routes| && Matching(env, routes, ctx, j) ::
         j == i || StableSort.Before(Priorities(routes), i, j)
  }

  /** The cluster a route sends to when its split's counter has this value; none if the split has no weight. */
  function TargetCluster(c: RouteConfig, counter: nat): Option<string> {
    if c.split.Some? then
      if Total(c.split.value) == 0 then None
      else Some(c.split.value[Pick(c.split.value, counter)].cluster)
    else c.cluster
  }

  /** The route's answer, and what it does to the split counters: only its own moves, by one. */
  predicate Answers(c: RouteConfig, i: nat, before: seq<nat>, after: seq<nat>, r: Option<RouteResult>) {
    && i < |before|
    && var cluster := TargetCluster(c, before[i]);
       if cluster.None? then r.None? && after == before
       else
         && r == Some(RouteResult(c.name, cluster.value, Fallbacks(c)))
         && after == if c.split.Some? then before[i := (before[i] + 1) % U64] else before
  }

  function Fallbacks(c: RouteConfig): seq<string> {
    if c.fallback.Some? then c.fallback.value else []
  }

  /** A configured cluster with an endpoint or a mock behind it. */
  predicate Usable(config: Config, cluster: string) {
    exists i | 0 <= i < |config.clusters| :: config.clusters[i].name == cluster && HasUpstream(config.clusters[i])
  }

  lemma NamedIsUsable(config: Config, cluster: string)
    requires ValidConfig(config) && cluster in NameSet(ClusterNames(config.clusters))
    ensures Usable(config, cluster)
  {
    var i :| 0 <= i < |config.clusters| && ClusterNames(config.clusters)[i] == cluster;
    assert HasUpstream(config.clusters[i]);
  }

  /** In a valid configuration, whatever a route sends to is usable. */
  lemma TargetsAreUsable(config: Config, i: nat, counter: nat)
    requires ValidConfig(config) && i < |config.routes|
    ensures var t := TargetCluster(config.routes[i], counter); t.Some? ==> Usable(config, t.value)
    ensures forall f | f in Fallbacks(config.routes[i]) :: Usable(config, f)
    ensures TargetCluster(config.routes[i], counter).None? <==>
            config.routes[i].split.Some? && Total(config.routes[i].split.value) == 0
  {
    var c := config.routes[i];
    assert RouteValid(c, NameSet(ClusterNames(config.clusters)));
    var t := TargetCluster(c, counter);
    if t.Some? {
      NamedIsUsable(config, t.value);
    }
    forall f | f in Fallbacks(c) ensures Usable(config, f) {
      NamedIsUsable(config, f);
    }
  }

  /** Every route compiles, except for a bad regular expression or a missing target. */
  predicate AllCompile(env: Env, routes: seq<RouteConfig>) {
    forall i | 0 <= i < |routes| :: CompileRoute(env, routes[i], i).Ok?
  }

  /** The error of the first route that does not compile. */
  ghost predicate FirstError(env: Env, routes: seq<RouteConfig>, e: RouterError) {
    exists i: nat ::
      && i < |routes| && CompileRoute(env, routes[i], i) == Err(e)
      && forall k: nat | k < i :: CompileRoute(env, routes[k], k).Ok?
  }

  predicate Compiled(env: Env, sources: seq<RouteConfig>, routes: seq<Route>, order: seq<nat>) {
    && |routes| == |sources| == |order|
    && order == StableSort.SortedPositions(Priorities(sources))
    && forall p | 0 <= p < |routes| :: order[p] < |sources| && CompileRoute(env, sources[order[p]], order[p]) == Ok(routes[p])
  }

  /** A splitter of its own, starting at zero or not, for each route with a split. */
  ghost predicate SplittersFit(splitters: seq<Splitter?>, sources: seq<RouteConfig>)
    reads Objects(splitters)
  {
    && |splitters| == |sources|
    && (forall i | 0 <= i < |sources| :: sources[i].split.Some? <==> splitters[i] != null)
    && (forall i | 0 <= i < |sources| && splitters[i] != null ::
          splitters[i].splits == sources[i].split.value && splitters[i].Valid())
    && (forall i, j | 0 <= i < j < |sources| && splitters[i] != null :: splitters[i] != splitters[j])
  }

  ghost function Objects(splitters: seq<Splitter?>): set<Splitter?> {
    set i | 0 <= i < |splitters| && splitters[i] != null :: splitters[i]
  }

  /** The counter of each route's split. */
  ghost function CountersOf(splitters: seq<Splitter?>): seq<nat>
    reads Objects(splitters)
  {
    seq(|splitters|, i requires 0 <= i < |splitters| reads Objects(splitters) =>
      if splitters[i] == null then 0 else splitters[i].counter)
  }

  class MessageRouter {
    const env: Env
    const routes: seq<Route>
    const splitters: seq<Splitter?>
    ghost const sources: seq<RouteConfig>

    constructor (env: Env, ghost sources: seq<RouteConfig>, routes: seq<Route>, splitters: seq<Splitter?>)
      ensures this.env == env && this.sources == sources && this.routes == routes && this.splitters == splitters
    {
      this.env := env;
      this.sources := sources;
      this.routes := routes;
      this.splitters := splitters;
    }

    ghost predicate Valid()
      reads Objects(splitters)
    {
      && Compiled(env, sources, routes, StableSort.SortedPositions(Priorities(sources)))
      && SplittersFit(splitters, sources)
    }

    ghost function Counters(): seq<nat>
      reads Objects(splitters)
    {
      CountersOf(splitters)
    }

    /** Answers with the best matching route and nothing else; only that route's split counter moves. */
    method RouteContext(ctx: Context) returns (r: Option<RouteResult>)
      requires Valid()
      modifies Objects(splitters)
      ensures Valid()
      ensures (forall i: nat | i < |sources| :: !Matching(env, sources, ctx, i)) ==>
                r.None? && Counters() == old(Counters())
      ensures forall i: nat | i < |sources| && Best(env, sources, ctx, i) ::
                Answers(sources[i], i, old(Counters()), Counters(), r)
    {
      ghost var order := StableSort.SortedPositions(Priorities(sources));
      ghost var wanted := (k: nat) => Matching(env, sources, ctx, k);
      for p := 0 to |routes|
        invariant Valid() && Counters() == old(Counters())
        invariant forall q | 0 <= q < p :: !wanted(order[q])
      {
        var route := routes[p];
        ghost var i := order[p];
        RouteIsFaithful(env, sources[i], i, ctx);
        if MatchesContext(env, route.matcher, ctx) {
          BestIsFirst(env, sources, ctx, order, p);
          r := Answer(route, sources[i]);
          return;
        }
      }
      forall i: nat | i < |sources| ensures !Matching(env, sources, ctx, i) {
        var q := StableSort.PositionOf(Priorities(sources), order, i);
        assert !wanted(order[q]);
      }
      return None;
    }

    method Answer(route: Route, ghost c: RouteConfig) returns (r: Option<RouteResult>)
      requires SplittersFit(splitters, sources) && route.slot < |sources| && c == sources[route.slot]
      requires CompileRoute(env, c, route.slot) == Ok(route)
      modifies Objects(splitters)
      ensures SplittersFit(splitters, sources)
      ensures Answers(c, route.slot, old(Counters()), Counters(), r)
    {
      var clusterName;
      match route.target {
        case Single(cluster) => clusterName := cluster;
        case Shared(_) =>
          var selected := SelectAt(route.slot);
          if selected.None? {
            return None;
          }
          clusterName := selected.value;
      }
      return Some(RouteResult(route.name, clusterName, route.fallback));
    }

    /** Selects from one route's splitter and leaves the others alone. */
    method SelectAt(slot: nat) returns (r: Option<string>)
      requires SplittersFit(splitters, sources) && slot < |sources| && sources[slot].split.Some?
      modifies Objects(splitters)
      ensures SplittersFit(splitters, sources)
      ensures r == TargetCluster(sources[slot], old(Counters()[slot]))
      ensures Counters() == if r.None? then old(Counters())
                            else old(Counters())[slot := (old(Counters()[slot]) + 1) % U64]
    {
      r := splitters[slot].Select();
      forall i | 0 <= i < |sources| && i != slot && splitters[i] != null ensures splitters[i].counter == old(splitters[i].counter) {
        assert splitters[i] != splitters[slot];
      }
    }
  }

  /** The first match in sorted order is the one best route. */
  lemma BestIsFirst(env: Env, sources: seq<RouteConfig>, ctx: Context, order: seq<nat>, p: nat)
    requires order == StableSort.SortedPositions(Priorities(sources)) && p < |sources|
    requires Matching(env, sources, ctx, order[p])
    requires forall q | 0 <= q < p :: !Matching(env, sources, ctx, order[q])
    ensures Best(env, sources, ctx, order[p])
    ensures forall i: nat | i < |sources| && Best(env, sources, ctx, i) :: i == order[p]
  {
    var wanted := (k: nat) => Matching(env, sources, ctx, k);
    assert forall q | 0 <= q < p :: !wanted(order[q]);
    forall j: nat | j < |sources| && Matching(env, sources, ctx, j)
      ensures j == order[p] || StableSort.Before(Priorities(sources), order[p], j)
    {
      StableSort.FirstIsLeast(Priorities(sources), order, p, wanted, j);
    }
  }

  /** `Router::new`: compiles each route, then sorts by priority. */
  method NewRouter(env: Env, sources: seq<RouteConfig>) returns (r: Result<MessageRouter, RouterError>)
    ensures r.Ok? <==> AllCompile(env, sources)
    ensures r.Ok? ==> fresh(r.value) && fresh(Objects(r.value.splitters))
    ensures r.Ok? ==> r.value.Valid() && r.value.env == env && r.value.sources == sources
    ensures r.Ok? ==> r.value.Counters() == seq(|sources|, _ => 0)
    ensures r.Err? ==> FirstError(env, sources, r.error)
  {
    var routes := CompileRoutes(env, sources);
    if routes.Err? {
      return Err(routes.error);
    }
    var splitters := NewSplitters(sources);
    var keys := seq(|routes.value|, i requires 0 <= i < |routes.value| => routes.value[i].priority);
    assert keys == Priorities(sources);
    var sorted := StableSort.Sort(routes.value, keys);
    ghost var order := StableSort.SortedPositions(keys);
    assert forall p | 0 <= p < |sorted| :: order[p] < |sources| && sorted[p] == routes.value[order[p]];
    var router := new MessageRouter(env, sources, sorted, splitters);
    return Ok(router);
  }

  method CompileRoutes(env: Env, sources: seq<RouteConfig>) returns (r: Result<seq<Route>, RouterError>)
    ensures r.Ok? <==> AllCompile(env, sources)
    ensures r.Ok? ==> |r.value| == |sources| && forall k | 0 <= k < |sources| :: CompileRoute(env, sources[k], k) == Ok(r.value[k])
    ensures r.Err? ==> FirstError(env, sources, r.error)
  {
    var routes: seq<Route> := [];
    for i := 0 to |sources|
      invariant |routes| == i
      invariant forall k | 0 <= k < i :: CompileRoute(env, sources[k], k) == Ok(routes[k])
    {
      var route := CompileRoute(env, sources[i], i);
      if route.Err? {
        return Err(route.error);
      }
      routes := routes + [route.value];
    }
    return Ok(routes);
  }

  method NewSplitters(sources: seq<RouteConfig>) returns (splitters: seq<Splitter?>)
    ensures SplittersFit(splitters, sources) && fresh(Objects(splitters))
    ensures CountersOf(splitters) == seq(|sources|, _ => 0)
  {
    splitters := [];
    for i := 0 to |sources|
      invariant |splitters| == i && forall k | 0 <= k < i && splitters[k] != null :: fresh(splitters[k])
      invariant SplittersFit(splitters, sources[..i])
      invariant forall k | 0 <= k < i && splitters[k] != null :: splitters[k].counter == 0
    {
      ghost var before := splitters;
      if sources[i].split.Some? {
        var splitter := new Splitter(sources[i].split.value);
        splitters := splitters + [splitter];
        assert forall k | 0 <= k < i :: splitters[k] == before[k];
      } else {
        splitters := splitters + [null];
        assert forall k | 0 <= k < i :: splitters[k] == before[k];
      }
    }
    assert sources[..|sources|] == sources;
  }

  /** Routing a message under a valid configuration never names a cluster that cannot be used. */
  method RouteValidated(config: Config, router: MessageRouter, ctx: Context) returns (r: Option<RouteResult>)
    requires ValidConfig(config) && router.Valid() && router.sources == config.routes
    modifies Objects(router.splitters)
    ensures router.Valid()
    ensures r.Some? ==> Usable(config, r.value.clusterName) && forall f | f in r.value.fallback :: Usable(config, f)
    ensures r.None? <==>
              forall i: nat | i < |config.routes| && Best(router.env, config.routes, ctx, i) ::
                config.routes[i].split.Some? && Total(config.routes[i].split.value) == 0
  {
    ghost var counters := router.Counters();
    r := router.RouteContext(ctx);
    BestExists(router.env, config.routes, ctx);
    forall i: nat | i < |config.routes| && Best(router.env, config.routes, ctx, i)
      ensures r.None? <==> config.routes[i].split.Some? && Total(config.routes[i].split.value) == 0
      ensures r.Some? ==> Usable(config, r.value.clusterName) && forall f | f in r.value.fallback :: Usable(config, f)
    {
      TargetsAreUsable(config, i, counters[i]);
    }
  }

  /** If any route matches, one of them is the best, and only one. */
  lemma BestExists(env: Env, sources: seq<RouteConfig>, ctx: Context)
    ensures (exists i: nat :: Matching(env, sources, ctx, i)) <==> (exists i: nat :: Best(env, sources, ctx, i))
    ensures forall i: nat, j: nat | Best(env, sources, ctx, i) && Best(env, sources, ctx, j) :: i == j
  {
    if i: nat :| Matching(env, sources, ctx, i) {
      var order := StableSort.SortedPositions(Priorities(sources));
      var q := StableSort.PositionOf(Priorities(sources), order, i);
      var p := FirstMatch(env, sources, ctx, order, q);
      BestIsFirst(env, sources, ctx, order, p);
    }
  }

  lemma {:induction false} FirstMatch(env: Env, sources: seq<RouteConfig>, ctx: Context, order: seq<nat>, q: nat)
    returns (p: nat)
    requires q < |order| && Matching(env, sources, ctx, order[q])
    ensures p <= q && Matching(env, sources, ctx, order[p])
    ensures forall k | 0 <= k < p :: !Matching(env, sources, ctx, order[k])
  {
    if k :| 0 <= k < q && Matching(env, sources, ctx, order[k]) {
      p := FirstMatch(env, sources, ctx, order, k);
    } else {
      p := q;
    }
  }
}
