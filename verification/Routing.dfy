/**
 Routing (src/config/loader.rs, src/router/matcher.rs, src/router/router.rs):
 what a validated configuration is, what a configured route matches, and the
 compiled matcher that decides it.
 */
module Routing {
  import opened Wrappers
  import opened WeightedSplit

  datatype MatchCondition = MatchCondition(prefix: Option<string>, regex: Option<string>, exact: Option<string>,
                                           any: Option<bool>)

  datatype RouteMatch = RouteMatch(
    destination: Option<MatchCondition>, source: Option<MatchCondition>, senderId: Option<MatchCondition>,
    systemId: Option<string>, serviceType: Option<string>, esmClass: Option<nat>, dataCoding: Option<seq<nat>>,
    timeWindow: Option<string>, prefix: Option<string>, regex: Option<string>)

  datatype RouteConfig = RouteConfig(name: string, match_: RouteMatch, cluster: Option<string>,
                                     split: Option<seq<Split>>, fallback: Option<seq<string>>, priority: int)

  datatype ClusterConfig = ClusterConfig(name: string, endpoints: seq<string>, mock: bool)

  datatype Config = Config(listeners: seq<string>, clusters: seq<ClusterConfig>, routes: seq<RouteConfig>)

  datatype Error =
    | NoListener
    | DuplicateListener(listener: string)
    | DuplicateCluster(cluster: string)
    | UnknownCluster(route: string, cluster: string)
    | UnknownInSplit(route: string, cluster: string)
    | UnknownFallback(route: string, cluster: string)
    | NoTarget(route: string)
    | TwoTargets(route: string)
    | NoEndpoint(cluster: string)

  // -------------------------------------------------------------------------
  // Validation
  // -------------------------------------------------------------------------

  predicate AllDifferent(names: seq<string>) {
    forall i, j | 0 <= i < j < |names| :: names[i] != names[j]
  }

  function ClusterNames(clusters: seq<ClusterConfig>): seq<string> {
    seq(|clusters|, i requires 0 <= i < |clusters| => clusters[i].name)
  }

  predicate HasUpstream(c: ClusterConfig) {
    c.endpoints != [] || c.mock
  }

  predicate RouteValid(route: RouteConfig, names: set<string>) {
    && (route.cluster.Some? <==> route.split.None?)
    && (route.cluster.Some? ==> route.cluster.value in names)
    && (route.split.Some? ==> forall i | 0 <= i < |route.split.value| :: route.split.value[i].cluster in names)
    && (route.fallback.Some? ==> forall i | 0 <= i < |route.fallback.value| :: route.fallback.value[i] in names)
  }

  function NameSet(names: seq<string>): set<string> {
    set i | 0 <= i < |names| :: names[i]
  }

  predicate ValidConfig(c: Config) {
    && c.listeners != []
    && AllDifferent(c.listeners)
    && AllDifferent(ClusterNames(c.clusters))
    && (forall i | 0 <= i < |c.routes| :: RouteValid(c.routes[i], NameSet(ClusterNames(c.clusters))))
    && (forall i | 0 <= i < |c.clusters| :: HasUpstream(c.clusters[i]))
  }

  /** The reported fault of a route is really there. */
  predicate RouteFault(route: RouteConfig, names: set<string>, e: Error) {
    match e
    case UnknownCluster(r, c) => r == route.name && route.cluster == Some(c) && c !in names
    case UnknownInSplit(r, c) =>
      r == route.name && route.split.Some? && c !in names
      && exists i | 0 <= i < |route.split.value| :: route.split.value[i].cluster == c
    case UnknownFallback(r, c) =>
      r == route.name && route.fallback.Some? && c !in names && c in route.fallback.value
    case NoTarget(r) => r == route.name && route.cluster.None? && route.split.None?
    case TwoTargets(r) => r == route.name && route.cluster.Some? && route.split.Some?
    case _ => false
  }

  method ValidateRoute(route: RouteConfig, names: set<string>) returns (r: Option<Error>)
    ensures r.None? <==> RouteValid(route, names)
    ensures r.Some? ==> RouteFault(route, names, r.value)
  {
    if route.cluster.Some? {
      if route.cluster.value !in names {
        return Some(UnknownCluster(route.name, route.cluster.value));
      }
    }
    if route.split.Some? {
      for i := 0 to |route.split.value|
        invariant forall k | 0 <= k < i :: route.split.value[k].cluster in names
      {
        if route.split.value[i].cluster !in names {
          return Some(UnknownInSplit(route.name, route.split.value[i].cluster));
        }
      }
    }
    if route.fallback.Some? {
      for i := 0 to |route.fallback.value|
        invariant forall k | 0 <= k < i :: route.fallback.value[k] in names
      {
        if route.fallback.value[i] !in names {
          return Some(UnknownFallback(route.name, route.fallback.value[i]));
        }
      }
    }
    if route.cluster.None? && route.split.None? {
      return Some(NoTarget(route.name));
    }
    if route.cluster.Some? && route.split.Some? {
      return Some(TwoTargets(route.name));
    }
    return None;
  }

  /** Fills a set with the names; stops at the first name it already holds. */
  method UniqueNames(names: seq<string>) returns (seen: set<string>, duplicate: Option<string>)
    ensures duplicate.None? <==> AllDifferent(names)
    ensures duplicate.None? ==> seen == NameSet(names)
    ensures duplicate.Some? ==> exists i, j | 0 <= i < j < |names| :: names[i] == names[j] == duplicate.value
  {
    seen := {};
    for i := 0 to |names|
      invariant seen == NameSet(names[..i])
      invariant AllDifferent(names[..i])
    {
      if names[i] in seen {
        ghost var k :| 0 <= k < i && names[..i][k] == names[i];
        assert names[k] == names[i];
        return seen, Some(names[i]);
      }
      seen := seen + {names[i]};
      assert forall k | 0 <= k < i :: names[..i][k] == names[..i + 1][k];
      assert names[..i + 1][i] == names[i];
    }
    assert names[..|names|] == names;
    return seen, None;
  }

  /** The reported fault of a configuration is really there. */
  predicate Fault(c: Config, e: Error) {
    match e
    case NoListener => c.listeners == []
    case DuplicateListener(name) =>
      exists i, j | 0 <= i < j < |c.listeners| :: c.listeners[i] == c.listeners[j] == name
    case DuplicateCluster(name) =>
      exists i, j | 0 <= i < j < |c.clusters| :: c.clusters[i].name == c.clusters[j].name == name
    case NoEndpoint(name) =>
      exists i | 0 <= i < |c.clusters| :: c.clusters[i].name == name && !HasUpstream(c.clusters[i])
    case _ =>
      exists i | 0 <= i < |c.routes| :: RouteFault(c.routes[i], NameSet(ClusterNames(c.clusters)), e)
  }

  /** Accepts exactly the valid configurations, and reports a real fault in any other. */
  method Validate(c: Config) returns (r: Result<(), Error>)
    ensures r.Ok? <==> ValidConfig(c)
    ensures r.Err? ==> Fault(c, r.error)
  {
    if |c.listeners| == 0 {
      return Err(NoListener);
    }
    var listenerNames, duplicate := UniqueNames(c.listeners);
    if duplicate.Some? {
      return Err(DuplicateListener(duplicate.value));
    }
    var clusterNames, again := UniqueNames(ClusterNames(c.clusters));
    if again.Some? {
      ghost var i, j :| 0 <= i < j < |c.clusters| && ClusterNames(c.clusters)[i] == ClusterNames(c.clusters)[j] == again.value;
      assert c.clusters[i].name == c.clusters[j].name;
      return Err(DuplicateCluster(again.value));
    }
    for i := 0 to |c.routes|
      invariant forall k | 0 <= k < i :: RouteValid(c.routes[k], clusterNames)
    {
      var fault := ValidateRoute(c.routes[i], clusterNames);
      if fault.Some? {
        return Err(fault.value);
      }
    }
    for i := 0 to |c.clusters|
      invariant forall k | 0 <= k < i :: HasUpstream(c.clusters[k])
    {
      if |c.clusters[i].endpoints| == 0 && !c.clusters[i].mock {
        return Err(NoEndpoint(c.clusters[i].name));
      }
    }
    return Ok(());
  }

  // -------------------------------------------------------------------------
  // What a configured route matches
  // -------------------------------------------------------------------------

  /** Regular expressions, and which time windows the clock is in. */
  datatype Env = Env(regexValid: string -> bool, regexMatch: (string, string) -> bool, inWindow: string -> bool)

  datatype Context = Context(destination: string, source: Option<string>, senderId: Option<string>,
                             systemId: Option<string>, serviceType: Option<string>,
                             esmClass: Option<nat>, dataCoding: Option<nat>)

  /** A condition with none of its fields set says nothing. */
  predicate SaysNothing(c: MatchCondition) {
    c.any != Some(true) && c.exact.None? && c.regex.None? && c.prefix.None?
  }

  predicate ConditionHolds(env: Env, c: MatchCondition, value: string) {
    if c.any == Some(true) then true
    else if c.exact.Some? then value == c.exact.value
    else if c.regex.Some? then env.regexMatch(c.regex.value, value)
    else c.prefix.Some? ==> c.prefix.value <= value
  }

  /** A condition that says something needs the field to be present. */
  predicate OptionalHolds(env: Env, c: Option<MatchCondition>, value: Option<string>) {
    c.Some? && !SaysNothing(c.value) ==> value.Some? && ConditionHolds(env, c.value, value.value)
  }

  /** The destination condition hides the older prefix and regex fields even when it says nothing. */
  predicate DestinationHolds(env: Env, m: RouteMatch, destination: string) {
    if m.destination.Some? then ConditionHolds(env, m.destination.value, destination)
    else if m.prefix.Some? then m.prefix.value <= destination
    else m.regex.Some? ==> env.regexMatch(m.regex.value, destination)
  }

  predicate RouteMatches(env: Env, m: RouteMatch, ctx: Context) {
    && DestinationHolds(env, m, ctx.destination)
    && OptionalHolds(env, m.source, ctx.source)
    && OptionalHolds(env, m.senderId, ctx.senderId)
    && (m.systemId.Some? ==> ctx.systemId == m.systemId)
    && (m.serviceType.Some? ==> ctx.serviceType == m.serviceType)
    && (m.esmClass.Some? ==> ctx.esmClass == m.esmClass)
    && (m.dataCoding.Some? ==> ctx.dataCoding.Some? && ctx.dataCoding.value in m.dataCoding.value)
    && (m.timeWindow.Some? ==> env.inWindow(m.timeWindow.value))
  }

  // -------------------------------------------------------------------------
  // Compiled routes
  // -------------------------------------------------------------------------

  datatype MatcherKind = Any | Prefix(prefix: string) | Regex(pattern: string) | Exact(value: string)

  function FromCondition(c: MatchCondition): Option<MatcherKind> {
    if c.any == Some(true) then Some(Any)
    else if c.exact.Some? then Some(Exact(c.exact.value))
    else if c.regex.Some? then Some(Regex(c.regex.value))
    else if c.prefix.Some? then (if c.prefix.value == "" then Some(Any) else Some(Prefix(c.prefix.value)))
    else None
  }

  predicate KindMatches(env: Env, kind: MatcherKind, value: string) {
    match kind
    case Any => true
    case Prefix(prefix) => prefix <= value
    case Regex(pattern) => env.regexMatch(pattern, value)
    case Exact(exact) => value == exact
  }

  predicate KindCompiles(env: Env, kind: Option<MatcherKind>) {
    kind.Some? && kind.value.Regex? ==> env.regexValid(kind.value.pattern)
  }

  datatype Matcher = Matcher(destination: Option<MatcherKind>, source: Option<MatcherKind>,
                             senderId: Option<MatcherKind>, systemId: Option<string>, serviceType: Option<string>,
                             esmClass: Option<nat>, dataCoding: Option<seq<nat>>, timeWindow: Option<string>)

  datatype Target = Single(cluster: string) | Shared(splits: seq<Split>)

  /** `slot` is the route's place in the configuration, which names its splitter. */
  datatype Route = Route(name: string, matcher: Matcher, target: Target, fallback: seq<string>, priority: int, slot: nat)

  datatype RouterError = InvalidRegex | InvalidRoute(route: string)

  function DestinationKind(m: RouteMatch): Option<MatcherKind> {
    if m.destination.Some? then FromCondition(m.destination.value)
    else if m.prefix.Some? then Some(if m.prefix.value == "" then Any else Prefix(m.prefix.value))
    else if m.regex.Some? then Some(Regex(m.regex.value))
    else None
  }

  function OptionalKind(c: Option<MatchCondition>): Option<MatcherKind> {
    if c.Some? then FromCondition(c.value) else None
  }

  function CompileRoute(env: Env, c: RouteConfig, slot: nat): Result<Route, RouterError> {
    var destination, source, sender := DestinationKind(c.match_), OptionalKind(c.match_.source), OptionalKind(c.match_.senderId);
    if !KindCompiles(env, destination) || !KindCompiles(env, source) || !KindCompiles(env, sender) then Err(InvalidRegex)
    else
      var matcher := Matcher(destination, source, sender, c.match_.systemId, c.match_.serviceType, c.match_.esmClass,
                             c.match_.dataCoding, c.match_.timeWindow);
      var fallback := if c.fallback.Some? then c.fallback.value else [];
      if c.split.Some? then Ok(Route(c.name, matcher, Shared(c.split.value), fallback, c.priority, slot))
      else if c.cluster.Some? then Ok(Route(c.name, matcher, Single(c.cluster.value), fallback, c.priority, slot))
      else Err(InvalidRoute(c.name))
  }

  /** `matches_context`, one field after the other. */
  predicate MatchesContext(env: Env, m: Matcher, ctx: Context) {
    if m.destination.Some? && !KindMatches(env, m.destination.value, ctx.destination) then false
    else if m.source.Some? && (ctx.source.None? || !KindMatches(env, m.source.value, ctx.source.value)) then false
    else if m.senderId.Some? && (ctx.senderId.None? || !KindMatches(env, m.senderId.value, ctx.senderId.value)) then false
    else if m.systemId.Some? && (ctx.systemId.None? || ctx.systemId.value != m.systemId.value) then false
    else if m.serviceType.Some? && (ctx.serviceType.None? || ctx.serviceType.value != m.serviceType.value) then false
    else if m.esmClass.Some? && (ctx.esmClass.None? || ctx.esmClass.value != m.esmClass.value) then false
    else if m.dataCoding.Some? && (ctx.dataCoding.None? || ctx.dataCoding.value !in m.dataCoding.value) then false
    else m.timeWindow.None? || env.inWindow(m.timeWindow.value)
  }

  lemma ConditionIsFaithful(env: Env, c: MatchCondition, value: string)
    ensures FromCondition(c).None? <==> SaysNothing(c)
    ensures FromCondition(c).Some? ==> KindMatches(env, FromCondition(c).value, value) == ConditionHolds(env, c, value)
    ensures SaysNothing(c) ==> ConditionHolds(env, c, value)
  {}

  lemma OptionalIsFaithful(env: Env, c: Option<MatchCondition>, value: Option<string>)
    ensures var kind := OptionalKind(c);
            OptionalHolds(env, c, value) <==> (kind.Some? ==> value.Some? && KindMatches(env, kind.value, value.value))
  {
    if c.Some? {
      ConditionIsFaithful(env, c.value, if value.Some? then value.value else "");
    }
  }

  lemma DestinationIsFaithful(env: Env, m: RouteMatch, destination: string)
    ensures var kind := DestinationKind(m);
            DestinationHolds(env, m, destination) <==> (kind.Some? ==> KindMatches(env, kind.value, destination))
  {
    if m.destination.Some? {
      ConditionIsFaithful(env, m.destination.value, destination);
    }
  }

  /** A compiled route matches exactly the contexts its configuration describes. */
  lemma RouteIsFaithful(env: Env, c: RouteConfig, slot: nat, ctx: Context)
    requires CompileRoute(env, c, slot).Ok?
    ensures MatchesContext(env, CompileRoute(env, c, slot).value.matcher, ctx) == RouteMatches(env, c.match_, ctx)
  {
    DestinationIsFaithful(env, c.match_, ctx.destination);
    OptionalIsFaithful(env, c.match_.source, ctx.source);
    OptionalIsFaithful(env, c.match_.senderId, ctx.senderId);
  }
}
