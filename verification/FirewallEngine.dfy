/**
 Chains and rules of the firewall: what a configuration decides, and the engine
 that decides it from compiled conditions, counting rule hits as it goes.
 */
module FirewallEngine {
  import opened Wrappers
  import opened Firewall
  import StableSort

  datatype Policy = Accept | Drop | Reject

  datatype ChainType = Input | Output | Forward

  datatype Action =
    | Accept
    | Drop
    | Reject(status: nat, reason: Option<string>)
    | Log(andThen: Option<Action>)
    | RateLimit
    | Modify(source: Option<string>, destination: Option<string>, content: Option<string>)
    | Jump(chain: string)
    | Return
    | Quarantine
    | Delay
    | Mark(key: string, value: string)
    | Plugin(name: string)

  datatype Verdict =
    | Accept
    | Drop
    | Reject(status: nat, reason: Option<string>)
    | Quarantine
    | Modify(source: Option<string>, destination: Option<string>, content: Option<string>)
    | Continue

  predicate IsTerminal(v: Verdict) {
    !v.Continue? && !v.Modify?
  }

  datatype Rule<C> = Rule(name: Option<string>, enabled: bool, conditions: seq<C>, action: Action)

  datatype Chain<C> = Chain(name: string, kind: ChainType, priority: int, policy: Policy, rules: seq<Rule<C>>)

  datatype Config = Config(enabled: bool, defaultPolicy: Policy, chains: seq<Chain<Condition>>)

  const REJECT_STATUS: nat := 8

  function PolicyVerdict(p: Policy): Verdict {
    match p
    case Accept => Verdict.Accept
    case Drop => Verdict.Drop
    case Reject => Verdict.Reject(REJECT_STATUS, None)
  }

  function Execute(action: Action): Verdict {
    match action
    case Accept => Verdict.Accept
    case Drop => Verdict.Drop
    case Reject(status, reason) => Verdict.Reject(status, reason)
    case Log(andThen) => if andThen.Some? then Execute(andThen.value) else Continue
    case Quarantine => Verdict.Quarantine
    case Modify(source, destination, content) => Verdict.Modify(source, destination, content)
    case _ => Continue
  }

  // -------------------------------------------------------------------------
  // What a configuration decides
  // -------------------------------------------------------------------------

  predicate RuleWellFormed(env: Env, rule: Rule<Condition>) {
    WellFormed(env, Condition.And(rule.conditions))
  }

  predicate ChainWellFormed(env: Env, chain: Chain<Condition>) {
    forall i | 0 <= i < |chain.rules| :: RuleWellFormed(env, chain.rules[i])
  }

  predicate ConfigWellFormed(env: Env, chains: seq<Chain<Condition>>) {
    forall i | 0 <= i < |chains| :: ChainWellFormed(env, chains[i])
  }

  /** By priority, then as configured. */
  function InOrder<C>(chains: seq<Chain<C>>): seq<Chain<C>> {
    StableSort.Sort(chains, seq(|chains|, i requires 0 <= i < |chains| => chains[i].priority))
  }

  /** The rate table and clock, and the hits of each rule, named by its chain and its place. */
  datatype Gauge = Gauge(world: World, hits: multiset<(nat, nat)>)

  datatype Ruling = Ruling(verdict: Verdict, rule: Option<nat>, world: World)

  /** The ruling of a chain from its i-th rule on: the first enabled rule that holds, else the chain's policy. */
  function Rules(env: Env, chain: Chain<Condition>, i: nat, ctx: Context, w: World): Ruling
    requires ChainWellFormed(env, chain) && i <= |chain.rules|
    decreases |chain.rules| - i
  {
    if i == |chain.rules| then Ruling(PolicyVerdict(chain.policy), None, w)
    else if !chain.rules[i].enabled then Rules(env, chain, i + 1, ctx, w)
    else
      var rule := chain.rules[i];
      assert RuleWellFormed(env, rule);
      var a := Meaning(env, Condition.And(rule.conditions), ctx, w);
      if a.holds then Ruling(Execute(rule.action), Some(i), a.world) else Rules(env, chain, i + 1, ctx, a.world)
  }

  function ChainRuling(env: Env, chain: Chain<Condition>, p: nat, ctx: Context, g: Gauge): (Verdict, Gauge)
    requires ChainWellFormed(env, chain)
  {
    var r := Rules(env, chain, 0, ctx, g.world);
    (r.verdict, Gauge(r.world, if r.rule.Some? then g.hits + multiset{(p, r.rule.value)} else g.hits))
  }

  datatype Decision = Decision(verdict: Verdict, chain: Option<nat>, gauge: Gauge)

  /** From the p-th chain on: the first Input chain with a terminal ruling, else the default policy. */
  function Decide(env: Env, chains: seq<Chain<Condition>>, policy: Policy, p: nat, ctx: Context, g: Gauge): Decision
    requires ConfigWellFormed(env, chains) && p <= |chains|
    decreases |chains| - p
  {
    if p == |chains| then Decision(PolicyVerdict(policy), None, g)
    else if chains[p].kind != Input then Decide(env, chains, policy, p + 1, ctx, g)
    else
      var (verdict, g') := ChainRuling(env, chains[p], p, ctx, g);
      if IsTerminal(verdict) then Decision(verdict, Some(p), g')
      else Decide(env, chains, policy, p + 1, ctx, g')
  }

  // -------------------------------------------------------------------------
  // Consequences for every configuration
  // -------------------------------------------------------------------------

  /** Only a terminal verdict ever leaves the firewall: a `Modify` ruling is passed over like `Continue`. */
  lemma {:induction false} DecisionIsTerminal(env: Env, chains: seq<Chain<Condition>>, policy: Policy, p: nat,
                                              ctx: Context, g: Gauge)
    requires ConfigWellFormed(env, chains) && p <= |chains|
    ensures IsTerminal(Decide(env, chains, policy, p, ctx, g).verdict)
    decreases |chains| - p
  {
    if p < |chains| {
      DecisionIsTerminal(env, chains, policy, p + 1, ctx,
                         if chains[p].kind != Input then g else ChainRuling(env, chains[p], p, ctx, g).1);
    }
  }

  /** The gauge with which the p-th chain is reached, if nothing before it decides. */
  function GaugeAt(env: Env, chains: seq<Chain<Condition>>, p: nat, ctx: Context, g: Gauge): Gauge
    requires ConfigWellFormed(env, chains) && p <= |chains|
  {
    if p == 0 then g
    else
      var before := GaugeAt(env, chains, p - 1, ctx, g);
      if chains[p - 1].kind != Input then before else ChainRuling(env, chains[p - 1], p - 1, ctx, before).1
  }

  /** The p-th chain, once reached, gives the final answer. */
  predicate Decides(env: Env, chains: seq<Chain<Condition>>, p: nat, ctx: Context, g: Gauge)
    requires ConfigWellFormed(env, chains) && p < |chains|
  {
    chains[p].kind == Input && IsTerminal(ChainRuling(env, chains[p], p, ctx, GaugeAt(env, chains, p, ctx, g)).0)
  }

  lemma {:induction false} DecidedFromHere(env: Env, chains: seq<Chain<Condition>>, policy: Policy, p: nat,
                                           ctx: Context, g: Gauge)
    requires ConfigWellFormed(env, chains) && p <= |chains|
    requires forall q | 0 <= q < p :: !Decides(env, chains, q, ctx, g)
    ensures var d := Decide(env, chains, policy, p, ctx, GaugeAt(env, chains, p, ctx, g));
            match d.chain
            case Some(k) =>
              && p <= k < |chains| && Decides(env, chains, k, ctx, g)
              && (forall q | 0 <= q < k :: !Decides(env, chains, q, ctx, g))
              && (d.verdict, d.gauge) == ChainRuling(env, chains[k], k, ctx, GaugeAt(env, chains, k, ctx, g))
            case None =>
              && (forall q | 0 <= q < |chains| :: !Decides(env, chains, q, ctx, g))
              && d.verdict == PolicyVerdict(policy)
              && d.gauge == GaugeAt(env, chains, |chains|, ctx, g)
    decreases |chains| - p
  {
    if p < |chains| && !Decides(env, chains, p, ctx, g) {
      DecidedFromHere(env, chains, policy, p + 1, ctx, g);
    }
  }

  /**
   The first Input chain whose ruling is terminal decides, with that ruling; the
   default policy decides if and only if there is none.
   */
  lemma FirstTerminalDecides(env: Env, chains: seq<Chain<Condition>>, policy: Policy, ctx: Context, g: Gauge)
    requires ConfigWellFormed(env, chains)
    ensures var d := Decide(env, chains, policy, 0, ctx, g);
            match d.chain
            case Some(k) =>
              && k < |chains| && Decides(env, chains, k, ctx, g)
              && (forall q | 0 <= q < k :: !Decides(env, chains, q, ctx, g))
              && (d.verdict, d.gauge) == ChainRuling(env, chains[k], k, ctx, GaugeAt(env, chains, k, ctx, g))
            case None =>
              && (forall q | 0 <= q < |chains| :: !Decides(env, chains, q, ctx, g))
              && d.verdict == PolicyVerdict(policy)
              && d.gauge == GaugeAt(env, chains, |chains|, ctx, g)
  {
    DecidedFromHere(env, chains, policy, 0, ctx, g);
  }

  /** A chain lets a message on only through a rule that matched and does not decide: its policy always decides. */
  lemma {:induction false} PolicyAlwaysDecides(env: Env, chain: Chain<Condition>, i: nat, ctx: Context, w: World)
    requires ChainWellFormed(env, chain) && i <= |chain.rules|
    ensures var r := Rules(env, chain, i, ctx, w);
            match r.rule
            case None => IsTerminal(r.verdict)
            case Some(k) => i <= k < |chain.rules| && chain.rules[k].enabled && r.verdict == Execute(chain.rules[k].action)
    decreases |chain.rules| - i
  {
    if i < |chain.rules| {
      var rule := chain.rules[i];
      assert RuleWellFormed(env, rule);
      PolicyAlwaysDecides(env, chain, i + 1, ctx,
                          if rule.enabled then Meaning(env, Condition.And(rule.conditions), ctx, w).world else w);
    }
  }

  // -------------------------------------------------------------------------
  // Where a verdict comes from
  // -------------------------------------------------------------------------

  /** What is left of an action when the logging around it is taken off. */
  function Peeled(action: Action): Action {
    if action.Log? && action.andThen.Some? then Peeled(action.andThen.value) else action
  }

  /** A rule with such an action decides; any other lets the message on to the next chain. */
  predicate Settles(action: Action) {
    var a := Peeled(action);
    a.Accept? || a.Drop? || a.Reject? || a.Quarantine?
  }

  /** The world in which the i-th rule is looked at: the conditions of the enabled rules before it have been evaluated. */
  function Reached(env: Env, chain: Chain<Condition>, i: nat, ctx: Context, w: World): World
    requires ChainWellFormed(env, chain) && i <= |chain.rules|
  {
    if i == 0 then w
    else
      var before := Reached(env, chain, i - 1, ctx, w);
      assert RuleWellFormed(env, chain.rules[i - 1]);
      if chain.rules[i - 1].enabled then Meaning(env, Condition.And(chain.rules[i - 1].conditions), ctx, before).world
      else before
  }

  /** The i-th rule is enabled, and all its conditions hold when it is looked at. */
  predicate HoldsAt(env: Env, chain: Chain<Condition>, i: nat, ctx: Context, w: World)
    requires ChainWellFormed(env, chain) && i < |chain.rules|
  {
    assert RuleWellFormed(env, chain.rules[i]);
    && chain.rules[i].enabled
    && Meaning(env, Condition.And(chain.rules[i].conditions), ctx, Reached(env, chain, i, ctx, w)).holds
  }

  predicate FirstToHold(env: Env, chain: Chain<Condition>, i: nat, ctx: Context, w: World)
    requires ChainWellFormed(env, chain)
  {
    i < |chain.rules| && HoldsAt(env, chain, i, ctx, w) && forall j | 0 <= j < i :: !HoldsAt(env, chain, j, ctx, w)
  }

  predicate NoneHolds(env: Env, chain: Chain<Condition>, ctx: Context, w: World)
    requires ChainWellFormed(env, chain)
  {
    forall j | 0 <= j < |chain.rules| :: !HoldsAt(env, chain, j, ctx, w)
  }

  /** How many rules have been looked at once a rule from the i-th on has held, or there are no more. */
  function Looked(env: Env, chain: Chain<Condition>, i: nat, ctx: Context, w: World): (n: nat)
    requires ChainWellFormed(env, chain) && i <= |chain.rules|
    ensures n <= |chain.rules|
    decreases |chain.rules| - i
  {
    if i == |chain.rules| then i
    else if HoldsAt(env, chain, i, ctx, w) then i + 1
    else Looked(env, chain, i + 1, ctx, w)
  }

  /** The world in which the p-th chain is looked at, if no chain before it decides. */
  function WorldAt(env: Env, chains: seq<Chain<Condition>>, p: nat, ctx: Context, w: World): World
    requires ConfigWellFormed(env, chains) && p <= |chains|
  {
    if p == 0 then w
    else
      var before := WorldAt(env, chains, p - 1, ctx, w);
      if chains[p - 1].kind != Input then before
      else Reached(env, chains[p - 1], Looked(env, chains[p - 1], 0, ctx, before), ctx, before)
  }

  /** The q-th chain is not asked, or the first rule of it that holds does not decide. */
  predicate Passes(env: Env, chains: seq<Chain<Condition>>, q: nat, ctx: Context, w: World)
    requires ConfigWellFormed(env, chains) && q < |chains|
  {
    || chains[q].kind != Input
    || exists i: nat | i < |chains[q].rules| ::
         FirstToHold(env, chains[q], i, ctx, WorldAt(env, chains, q, ctx, w)) && !Settles(chains[q].rules[i].action)
  }

  predicate AllPass(env: Env, chains: seq<Chain<Condition>>, p: nat, ctx: Context, w: World)
    requires ConfigWellFormed(env, chains) && p <= |chains|
  {
    forall q | 0 <= q < p :: Passes(env, chains, q, ctx, w)
  }

  datatype Source = FromRule(chain: nat, rule: nat) | FromPolicy(chain: nat) | FromDefault

  /** What decides a message: a rule, the policy of a chain without a rule that holds, or the default policy. */
  predicate DecidedBy(env: Env, chains: seq<Chain<Condition>>, ctx: Context, w: World, s: Source)
    requires ConfigWellFormed(env, chains)
  {
    match s
    case FromRule(p, i) =>
      && p < |chains| && AllPass(env, chains, p, ctx, w) && chains[p].kind == Input
      && FirstToHold(env, chains[p], i, ctx, WorldAt(env, chains, p, ctx, w)) && Settles(chains[p].rules[i].action)
    case FromPolicy(p) =>
      && p < |chains| && AllPass(env, chains, p, ctx, w) && chains[p].kind == Input
      && NoneHolds(env, chains[p], ctx, WorldAt(env, chains, p, ctx, w))
    case FromDefault => AllPass(env, chains, |chains|, ctx, w)
  }

  predicate ActionOrders(action: Action, v: Verdict) {
    match Peeled(action)
    case Accept => v == Verdict.Accept
    case Drop => v == Verdict.Drop
    case Reject(status, reason) => v == Verdict.Reject(status, reason)
    case Quarantine => v == Verdict.Quarantine
    case Modify(source, destination, content) => v == Verdict.Modify(source, destination, content)
    case _ => v == Continue
  }

  predicate PolicyOrders(policy: Policy, v: Verdict) {
    match policy
    case Accept => v == Verdict.Accept
    case Drop => v == Verdict.Drop
    case Reject => v == Verdict.Reject(8, None)
  }

  predicate Orders(chains: seq<Chain<Condition>>, policy: Policy, s: Source, v: Verdict) {
    match s
    case FromRule(p, i) => p < |chains| && i < |chains[p].rules| && ActionOrders(chains[p].rules[i].action, v)
    case FromPolicy(p) => p < |chains| && PolicyOrders(chains[p].policy, v)
    case FromDefault => PolicyOrders(policy, v)
  }

  /** The verdict is ordered by what decides the message. */
  ghost predicate Justified(env: Env, chains: seq<Chain<Condition>>, policy: Policy, ctx: Context, w: World, v: Verdict)
    requires ConfigWellFormed(env, chains)
  {
    exists s :: DecidedBy(env, chains, ctx, w, s) && Orders(chains, policy, s, v)
  }

  lemma {:induction false} ActionSettles(action: Action)
    ensures IsTerminal(Execute(action)) <==> Settles(action)
    ensures ActionOrders(action, Execute(action))
    decreases action
  {
    if action.Log? && action.andThen.Some? {
      ActionSettles(action.andThen.value);
    }
  }

  /** One rule is looked at: it gives the ruling if it holds, and otherwise the next one is. */
  lemma LookedAtRule(env: Env, chain: Chain<Condition>, i: nat, ctx: Context, w: World)
    requires ChainWellFormed(env, chain) && i < |chain.rules|
    ensures var here, next := Reached(env, chain, i, ctx, w), Reached(env, chain, i + 1, ctx, w);
            Rules(env, chain, i, ctx, here) ==
            if HoldsAt(env, chain, i, ctx, w) then Ruling(Execute(chain.rules[i].action), Some(i), next)
            else Rules(env, chain, i + 1, ctx, next)
  {
    assert RuleWellFormed(env, chain.rules[i]);
  }

  /** The ruling is by the first rule that holds, or by none. */
  predicate RuledByFirst(env: Env, chain: Chain<Condition>, i: nat, ctx: Context, w: World, r: Ruling)
    requires ChainWellFormed(env, chain) && i <= |chain.rules|
  {
    && r.world == Reached(env, chain, Looked(env, chain, i, ctx, w), ctx, w)
    && match r.rule
       case Some(k) => FirstToHold(env, chain, k, ctx, w) && r.verdict == Execute(chain.rules[k].action)
       case None => NoneHolds(env, chain, ctx, w) && r.verdict == PolicyVerdict(chain.policy)
  }

  lemma RuledHere(env: Env, chain: Chain<Condition>, i: nat, ctx: Context, w: World)
    requires ChainWellFormed(env, chain) && i < |chain.rules| && FirstToHold(env, chain, i, ctx, w)
    ensures RuledByFirst(env, chain, i, ctx, w, Rules(env, chain, i, ctx, Reached(env, chain, i, ctx, w)))
  {
    LookedAtRule(env, chain, i, ctx, w);
  }

  lemma RuledByNone(env: Env, chain: Chain<Condition>, ctx: Context, w: World)
    requires ChainWellFormed(env, chain) && NoneHolds(env, chain, ctx, w)
    ensures var n := |chain.rules|; RuledByFirst(env, chain, n, ctx, w, Rules(env, chain, n, ctx, Reached(env, chain, n, ctx, w)))
  {}

  lemma RuledLater(env: Env, chain: Chain<Condition>, i: nat, ctx: Context, w: World, r: Ruling)
    requires ChainWellFormed(env, chain) && i < |chain.rules| && !HoldsAt(env, chain, i, ctx, w)
    requires RuledByFirst(env, chain, i + 1, ctx, w, r)
    ensures RuledByFirst(env, chain, i, ctx, w, r)
  {
    assert Looked(env, chain, i, ctx, w) == Looked(env, chain, i + 1, ctx, w);
  }

  /** From the i-th rule on, none before having held. */
  lemma {:induction false} RulingIsByFirst(env: Env, chain: Chain<Condition>, i: nat, ctx: Context, w: World)
    requires ChainWellFormed(env, chain) && i <= |chain.rules|
    requires forall j | 0 <= j < i :: !HoldsAt(env, chain, j, ctx, w)
    ensures RuledByFirst(env, chain, i, ctx, w, Rules(env, chain, i, ctx, Reached(env, chain, i, ctx, w)))
    decreases |chain.rules| - i
  {
    if i == |chain.rules| {
      RuledByNone(env, chain, ctx, w);
    } else if HoldsAt(env, chain, i, ctx, w) {
      RuledHere(env, chain, i, ctx, w);
    } else {
      LookedAtRule(env, chain, i, ctx, w);
      RulingIsByFirst(env, chain, i + 1, ctx, w);
      RuledLater(env, chain, i, ctx, w, Rules(env, chain, i + 1, ctx, Reached(env, chain, i + 1, ctx, w)));
    }
  }

  lemma PolicyIsOrdered(policy: Policy)
    ensures IsTerminal(PolicyVerdict(policy)) && PolicyOrders(policy, PolicyVerdict(policy))
  {}

  /** The verdict is ordered by the first rule that holds, or by the policy if none does. */
  predicate ChainOrders(env: Env, chain: Chain<Condition>, ctx: Context, w: World, v: Verdict)
    requires ChainWellFormed(env, chain)
  {
    && (forall i: nat | i < |chain.rules| && FirstToHold(env, chain, i, ctx, w) :: ActionOrders(chain.rules[i].action, v))
    && (NoneHolds(env, chain, ctx, w) ==> PolicyOrders(chain.policy, v))
  }

  lemma RulingIsOrdered(env: Env, chain: Chain<Condition>, ctx: Context, w: World)
    requires ChainWellFormed(env, chain)
    ensures ChainOrders(env, chain, ctx, w, Rules(env, chain, 0, ctx, w).verdict)
  {
    RulingIsByFirst(env, chain, 0, ctx, w);
    var r := Rules(env, chain, 0, ctx, w);
    if r.rule.Some? {
      ActionSettles(chain.rules[r.rule.value].action);
      assert forall i: nat | i < |chain.rules| && FirstToHold(env, chain, i, ctx, w) :: i == r.rule.value;
    } else {
      PolicyIsOrdered(chain.policy);
    }
  }

  /** An Input chain that is reached either decides, as ordered, or passes the message on. */
  lemma ChainDecidesOrPasses(env: Env, chains: seq<Chain<Condition>>, policy: Policy, p: nat, ctx: Context, g: Gauge, w: World)
    returns (s: Source)
    requires ConfigWellFormed(env, chains) && p < |chains| && chains[p].kind == Input
    requires AllPass(env, chains, p, ctx, w) && g.world == WorldAt(env, chains, p, ctx, w)
    ensures var (verdict, g') := ChainRuling(env, chains[p], p, ctx, g);
            if IsTerminal(verdict) then DecidedBy(env, chains, ctx, w, s) && Orders(chains, policy, s, verdict)
            else AllPass(env, chains, p + 1, ctx, w) && g'.world == WorldAt(env, chains, p + 1, ctx, w)
  {
    var chain := chains[p];
    RulingIsByFirst(env, chain, 0, ctx, g.world);
    var r := Rules(env, chain, 0, ctx, g.world);
    if r.rule.Some? {
      s := FromRule(p, r.rule.value);
      ActionSettles(chain.rules[r.rule.value].action);
    } else {
      s := FromPolicy(p);
      PolicyIsOrdered(chain.policy);
    }
    assert !IsTerminal(r.verdict) ==> Passes(env, chains, p, ctx, w);
  }

  lemma {:induction false} DecisionIsJustified(env: Env, chains: seq<Chain<Condition>>, policy: Policy, p: nat,
                                               ctx: Context, g: Gauge, w: World)
    requires ConfigWellFormed(env, chains) && p <= |chains|
    requires AllPass(env, chains, p, ctx, w) && g.world == WorldAt(env, chains, p, ctx, w)
    ensures Justified(env, chains, policy, ctx, w, Decide(env, chains, policy, p, ctx, g).verdict)
    decreases |chains| - p
  {
    if p == |chains| {
      PolicyIsOrdered(policy);
      assert DecidedBy(env, chains, ctx, w, FromDefault);
    } else if chains[p].kind != Input {
      DecisionIsJustified(env, chains, policy, p + 1, ctx, g, w);
    } else {
      var s := ChainDecidesOrPasses(env, chains, policy, p, ctx, g, w);
      var (verdict, g') := ChainRuling(env, chains[p], p, ctx, g);
      if !IsTerminal(verdict) {
        DecisionIsJustified(env, chains, policy, p + 1, ctx, g', w);
      }
    }
  }

  /** The chain that decides, or whose policy does, does not pass the message on. */
  lemma DecidingIsNotPassing(env: Env, chains: seq<Chain<Condition>>, ctx: Context, w: World, s: Source)
    requires ConfigWellFormed(env, chains) && DecidedBy(env, chains, ctx, w, s) && !s.FromDefault?
    ensures !Passes(env, chains, s.chain, ctx, w)
  {}

  /** Only one thing decides a message. */
  lemma OneSource(env: Env, chains: seq<Chain<Condition>>, ctx: Context, w: World, s: Source, t: Source)
    requires ConfigWellFormed(env, chains) && DecidedBy(env, chains, ctx, w, s) && DecidedBy(env, chains, ctx, w, t)
    ensures s == t
  {
    if !s.FromDefault? {
      DecidingIsNotPassing(env, chains, ctx, w, s);
    }
    if !t.FromDefault? {
      DecidingIsNotPassing(env, chains, ctx, w, t);
    }
  }

  lemma OneOrder(chains: seq<Chain<Condition>>, policy: Policy, s: Source, v: Verdict, v': Verdict)
    requires Orders(chains, policy, s, v) && Orders(chains, policy, s, v')
    ensures v == v'
  {}

  lemma OneJustified(env: Env, chains: seq<Chain<Condition>>, policy: Policy, ctx: Context, w: World, v: Verdict, v': Verdict)
    requires ConfigWellFormed(env, chains)
    requires Justified(env, chains, policy, ctx, w, v) && Justified(env, chains, policy, ctx, w, v')
    ensures v == v'
  {
    var s :| DecidedBy(env, chains, ctx, w, s) && Orders(chains, policy, s, v);
    var t :| DecidedBy(env, chains, ctx, w, t) && Orders(chains, policy, t, v');
    OneSource(env, chains, ctx, w, s, t);
    OneOrder(chains, policy, s, v, v');
  }

  /**
   A verdict is given if and only if what decides the message orders it: the first
   rule that holds in the first chain that decides, by its action; that chain's
   policy if no rule of it holds; or the default policy if no chain decides.
   */
  lemma VerdictIff(env: Env, chains: seq<Chain<Condition>>, policy: Policy, ctx: Context, g: Gauge, v: Verdict)
    requires ConfigWellFormed(env, chains)
    ensures Decide(env, chains, policy, 0, ctx, g).verdict == v <==> Justified(env, chains, policy, ctx, g.world, v)
  {
    DecisionIsJustified(env, chains, policy, 0, ctx, g, g.world);
    if Justified(env, chains, policy, ctx, g.world, v) {
      OneJustified(env, chains, policy, ctx, g.world, v, Decide(env, chains, policy, 0, ctx, g).verdict);
    }
  }

  /** The verdict is ordered by what decides the message, and no other is. */
  ghost predicate OnlyJustified(env: Env, chains: seq<Chain<Condition>>, policy: Policy, ctx: Context, w: World, v: Verdict)
    requires ConfigWellFormed(env, chains)
  {
    forall u :: Justified(env, chains, policy, ctx, w, u) <==> u == v
  }

  lemma DecisionIsOnlyJustified(env: Env, chains: seq<Chain<Condition>>, policy: Policy, ctx: Context, g: Gauge)
    requires ConfigWellFormed(env, chains)
    ensures OnlyJustified(env, chains, policy, ctx, g.world, Decide(env, chains, policy, 0, ctx, g).verdict)
  {
    forall u ensures Justified(env, chains, policy, ctx, g.world, u) <==> u == Decide(env, chains, policy, 0, ctx, g).verdict {
      VerdictIff(env, chains, policy, ctx, g, u);
    }
  }

  // -------------------------------------------------------------------------
  // Compilation of chains
  // -------------------------------------------------------------------------

  function CompileRule(env: Env, rule: Rule<Condition>): Result<Rule<Compiled>, Error> {
    var r := CompileAll(env, rule.conditions);
    if r.Err? then Err(r.error) else Ok(Rule(rule.name, rule.enabled, r.value, rule.action))
  }

  function CompileRules(env: Env, rules: seq<Rule<Condition>>): Result<seq<Rule<Compiled>>, Error> {
    if rules == [] then Ok([])
    else
      var before := CompileRules(env, rules[..|rules| - 1]);
      if before.Err? then before
      else
        var r := CompileRule(env, rules[|rules| - 1]);
        if r.Err? then Err(r.error) else Ok(before.value + [r.value])
  }

  function CompileChain(env: Env, chain: Chain<Condition>): Result<Chain<Compiled>, Error> {
    var r := CompileRules(env, chain.rules);
    if r.Err? then Err(r.error) else Ok(Chain(chain.name, chain.kind, chain.priority, chain.policy, r.value))
  }

  function CompileChains(env: Env, chains: seq<Chain<Condition>>): Result<seq<Chain<Compiled>>, Error> {
    if chains == [] then Ok([])
    else
      var before := CompileChains(env, chains[..|chains| - 1]);
      if before.Err? then before
      else
        var r := CompileChain(env, chains[|chains| - 1]);
        if r.Err? then Err(r.error) else Ok(before.value + [r.value])
  }

  lemma {:induction false} RulesErrEarly(env: Env, rules: seq<Rule<Condition>>, i: nat)
    requires i <= |rules| && CompileRules(env, rules[..i]).Err?
    ensures CompileRules(env, rules) == CompileRules(env, rules[..i])
    decreases |rules|
  {
    if i == |rules| {
      assert rules[..i] == rules;
    } else {
      assert rules[..|rules| - 1][..i] == rules[..i];
      RulesErrEarly(env, rules[..|rules| - 1], i);
    }
  }

  lemma {:induction false} ChainsErrEarly(env: Env, chains: seq<Chain<Condition>>, i: nat)
    requires i <= |chains| && CompileChains(env, chains[..i]).Err?
    ensures CompileChains(env, chains) == CompileChains(env, chains[..i])
    decreases |chains|
  {
    if i == |chains| {
      assert chains[..i] == chains;
    } else {
      assert chains[..|chains| - 1][..i] == chains[..i];
      ChainsErrEarly(env, chains[..|chains| - 1], i);
    }
  }

  lemma RuleCompiles(env: Env, rule: Rule<Condition>)
    ensures CompileRule(env, rule).Ok? <==> RuleWellFormed(env, rule)
  {
    AllCompileIffWellFormed(env, rule.conditions);
  }

  lemma {:induction false} RulesCompileIff(env: Env, rules: seq<Rule<Condition>>)
    ensures CompileRules(env, rules).Ok? <==> forall i | 0 <= i < |rules| :: RuleWellFormed(env, rules[i])
  {
    if rules != [] {
      var n := |rules| - 1;
      RulesCompileIff(env, rules[..n]);
      RuleCompiles(env, rules[n]);
      assert forall i | 0 <= i < n :: rules[..n][i] == rules[i];
    }
  }

  lemma {:induction false} RulesCompileEach(env: Env, rules: seq<Rule<Condition>>)
    requires CompileRules(env, rules).Ok?
    ensures |CompileRules(env, rules).value| == |rules|
    ensures forall i | 0 <= i < |rules| :: CompileRule(env, rules[i]) == Ok(CompileRules(env, rules).value[i])
  {
    if rules != [] {
      var n := |rules| - 1;
      RulesCompileEach(env, rules[..n]);
      assert forall i | 0 <= i < n :: rules[..n][i] == rules[i];
    }
  }

  lemma ChainCompiles(env: Env, chain: Chain<Condition>)
    ensures CompileChain(env, chain).Ok? <==> ChainWellFormed(env, chain)
  {
    RulesCompileIff(env, chain.rules);
  }

  lemma WellFormedSplits(env: Env, chains: seq<Chain<Condition>>)
    requires chains != []
    ensures ConfigWellFormed(env, chains) <==>
            ConfigWellFormed(env, chains[..|chains| - 1]) && ChainWellFormed(env, chains[|chains| - 1])
  {
    var n := |chains| - 1;
    assert forall i | 0 <= i < n :: chains[..n][i] == chains[i];
  }

  lemma {:induction false} ChainsCompileIff(env: Env, chains: seq<Chain<Condition>>)
    ensures CompileChains(env, chains).Ok? <==> ConfigWellFormed(env, chains)
  {
    if chains != [] {
      var n := |chains| - 1;
      ChainsCompileIff(env, chains[..n]);
      ChainCompiles(env, chains[n]);
      WellFormedSplits(env, chains);
    }
  }

  lemma {:induction false} ChainsCompileEach(env: Env, chains: seq<Chain<Condition>>)
    requires CompileChains(env, chains).Ok?
    ensures Corresponds(env, chains, CompileChains(env, chains).value)
  {
    if chains != [] {
      var n := |chains| - 1;
      ChainsCompileEach(env, chains[..n]);
      assert forall i | 0 <= i < n :: chains[..n][i] == chains[i];
    }
  }

  predicate Corresponds(env: Env, sources: seq<Chain<Condition>>, chains: seq<Chain<Compiled>>) {
    && |sources| == |chains|
    && forall i | 0 <= i < |chains| :: CompileChain(env, sources[i]) == Ok(chains[i])
  }

  /** Sorting after compiling is the same as before it. */
  lemma SortedCorresponds(env: Env, sources: seq<Chain<Condition>>, chains: seq<Chain<Compiled>>)
    requires Corresponds(env, sources, chains)
    ensures Corresponds(env, InOrder(sources), InOrder(chains))
  {
    var a := seq(|sources|, i requires 0 <= i < |sources| => sources[i].priority);
    var b := seq(|chains|, i requires 0 <= i < |chains| => chains[i].priority);
    assert a == b by {
      forall i | 0 <= i < |sources| ensures a[i] == b[i] {
        assert CompileChain(env, sources[i]) == Ok(chains[i]);
      }
    }
    var order := StableSort.SortedPositions(a);
    assert forall i | 0 <= i < |sources| :: order[i] < |sources| && InOrder(sources)[i] == sources[order[i]];
    assert forall i | 0 <= i < |chains| :: InOrder(chains)[i] == chains[order[i]];
  }

  /** The p-th chain is the one configured at order[p]: lower priorities first, equal ones as configured. */
  predicate InPriorityOrder(env: Env, sources: seq<Chain<Condition>>, chains: seq<Chain<Compiled>>, order: seq<nat>) {
    && |order| == |chains| == |sources|
    && (forall p | 0 <= p < |order| :: order[p] < |sources| && CompileChain(env, sources[order[p]]) == Ok(chains[p]))
    && (forall p, q | 0 <= p < q < |order| ::
          chains[p].priority < chains[q].priority || (chains[p].priority == chains[q].priority && order[p] < order[q]))
  }

  lemma SortedByPriority(env: Env, sources: seq<Chain<Condition>>, chains: seq<Chain<Compiled>>)
    requires Corresponds(env, sources, chains)
    ensures exists order :: InPriorityOrder(env, sources, InOrder(chains), order)
  {
    var keys := seq(|chains|, i requires 0 <= i < |chains| => chains[i].priority);
    var order := StableSort.SortedPositions(keys);
    var sorted := InOrder(chains);
    assert forall p | 0 <= p < |order| :: sorted[p] == chains[order[p]];
    forall p, q | 0 <= p < q < |order|
      ensures sorted[p].priority < sorted[q].priority || (sorted[p].priority == sorted[q].priority && order[p] < order[q])
    {
      StableSort.LeastInOrder(keys, order, p, q);
    }
    assert InPriorityOrder(env, sources, sorted, order);
  }

  /** One compiled rule of a chain holds exactly when the configured one does, with the same effects. */
  lemma RuleIsFaithful(env: Env, source: Chain<Condition>, chain: Chain<Compiled>, i: nat, ctx: Context, w: World)
    requires CompileChain(env, source) == Ok(chain) && i < |chain.rules|
    ensures |source.rules| == |chain.rules| && ChainWellFormed(env, source)
    ensures source.rules[i].enabled == chain.rules[i].enabled && source.rules[i].action == chain.rules[i].action
    ensures RuleWellFormed(env, source.rules[i])
    ensures EvalAnd(env, chain.rules[i].conditions, ctx, w) ==
            Meaning(env, Condition.And(source.rules[i].conditions), ctx, w)
  {
    RulesCompileIff(env, source.rules);
    RulesCompileEach(env, source.rules);
    assert CompileRule(env, source.rules[i]) == Ok(chain.rules[i]);
    CompileAllIsFaithful(env, source.rules[i].conditions, ctx, w);
  }

  lemma ChainCompiledIsWellFormed(env: Env, source: Chain<Condition>, chain: Chain<Compiled>)
    requires CompileChain(env, source) == Ok(chain)
    ensures |source.rules| == |chain.rules| && ChainWellFormed(env, source)
    ensures source.policy == chain.policy && source.kind == chain.kind
  {
    RulesCompileIff(env, source.rules);
    RulesCompileEach(env, source.rules);
  }

  // -------------------------------------------------------------------------
  // The engine
  // -------------------------------------------------------------------------

  class CompiledFirewall {
    const env: Env
    const enabled: bool
    const defaultPolicy: Policy
    const chains: seq<Chain<Compiled>>
    var rates: map<string, RateState>
    var ticks: nat
    var hits: multiset<(nat, nat)>

    constructor (env: Env, enabled: bool, defaultPolicy: Policy, chains: seq<Chain<Compiled>>)
      ensures this.env == env && this.enabled == enabled && this.defaultPolicy == defaultPolicy
      ensures this.chains == chains && Now() == Gauge(World(map[], 0), multiset{})
    {
      this.env := env;
      this.enabled := enabled;
      this.defaultPolicy := defaultPolicy;
      this.chains := chains;
      rates, ticks, hits := map[], 0, multiset{};
    }

    function TheWorld(): World
      reads this
    {
      World(rates, ticks)
    }

    function Now(): Gauge
      reads this
    {
      Gauge(TheWorld(), hits)
    }

    /** Makes the entry if there is none, starts it anew if its window is over, and counts. */
    method CountAgainst(rateKey: string, window: nat, now: nat) returns (count: nat)
      modifies this`rates
      ensures var e := Count(if rateKey in old(rates) then Some(old(rates)[rateKey]) else None, window, now);
              rates == old(rates)[rateKey := e] && count == e.count
    {
      var state := if rateKey in rates then rates[rateKey] else RateState(0, now);
      if now >= state.windowStart + window {
        state := RateState(0, now);
      }
      state := state.(count := state.count + 1);
      rates := rates[rateKey := state];
      count := state.count;
    }

    method CheckRateLimit(key: RateKey, window: nat, threshold: nat, ctx: Context) returns (exceeded: bool)
      modifies this
      ensures Answer(exceeded, TheWorld()) == CheckRate(env, key, window, threshold, ctx, old(TheWorld()))
      ensures hits == old(hits)
    {
      var rateKey := TableKey(key, KeyValue(env, key, ctx));
      var now := env.clock(ticks).mono;
      ticks := ticks + 1;
      var count := CountAgainst(rateKey, window, now);
      exceeded := count > threshold;
    }

    method EvaluateCondition(c: Compiled, ctx: Context) returns (holds: bool)
      modifies this
      ensures Answer(holds, TheWorld()) == Eval(env, c, ctx, old(TheWorld()))
      ensures hits == old(hits)
      decreases c, 0
    {
      match c {
        case Simple(check) =>
          if check.Rate? {
            holds := CheckRateLimit(check.key, check.window, check.threshold, ctx);
          } else {
            var a := EvalCheck(env, check, ctx, TheWorld());
            holds, rates, ticks := a.holds, a.world.rates, a.world.ticks;
          }
        case Not(inner) =>
          var b := EvaluateCondition(inner, ctx);
          holds := !b;
        case And(cs) =>
          holds := EvaluateConditions(cs, ctx);
        case Or(cs) =>
          ghost var start := TheWorld();
          for i := 0 to |cs|
            invariant hits == old(hits)
            invariant EvalOr(env, cs, ctx, start) == EvalOr(env, cs[i..], ctx, TheWorld())
          {
            assert cs[i..][0] == cs[i] && cs[i..][1..] == cs[i + 1..];
            var b := EvaluateCondition(cs[i], ctx);
            if b {
              return true;
            }
          }
          holds := false;
        case _ =>
          var a := Eval(env, c, ctx, TheWorld());
          holds, rates, ticks := a.holds, a.world.rates, a.world.ticks;
      }
    }

    /** All of them, up to the first that does not hold. */
    method EvaluateConditions(cs: seq<Compiled>, ctx: Context) returns (holds: bool)
      modifies this
      ensures Answer(holds, TheWorld()) == EvalAnd(env, cs, ctx, old(TheWorld()))
      ensures hits == old(hits)
      decreases cs, 1
    {
      ghost var start := TheWorld();
      for i := 0 to |cs|
        invariant hits == old(hits)
        invariant EvalAnd(env, cs, ctx, start) == EvalAnd(env, cs[i..], ctx, TheWorld())
      {
        assert cs[i..][0] == cs[i] && cs[i..][1..] == cs[i + 1..];
        var b := EvaluateCondition(cs[i], ctx);
        if !b {
          return false;
        }
      }
      return true;
    }

    /** The loop over a chain's rules, and the chain's policy after it. */
    method EvaluateRules(p: nat, ctx: Context, ghost source: Chain<Condition>) returns (verdict: Verdict)
      requires p < |chains| && CompileChain(env, source) == Ok(chains[p])
      modifies this
      ensures ChainWellFormed(env, source)
      ensures (verdict, Now()) == ChainRuling(env, source, p, ctx, old(Now()))
    {
      var chain := chains[p];
      ChainCompiledIsWellFormed(env, source, chain);
      ghost var start := TheWorld();
      for i := 0 to |chain.rules|
        invariant hits == old(hits)
        invariant Rules(env, source, 0, ctx, start) == Rules(env, source, i, ctx, TheWorld())
      {
        RuleIsFaithful(env, source, chain, i, ctx, TheWorld());
        if chain.rules[i].enabled {
          var matches := EvaluateConditions(chain.rules[i].conditions, ctx);
          if matches {
            hits := hits + multiset{(p, i)};
            return Execute(chain.rules[i].action);
          }
        }
      }
      return PolicyVerdict(chain.policy);
    }

    method EvaluateChain(p: nat, ctx: Context, ghost source: Chain<Condition>) returns (verdict: Verdict)
      requires p < |chains| && CompileChain(env, source) == Ok(chains[p])
      modifies this
      ensures ChainWellFormed(env, source)
      ensures (verdict, Now()) == ChainRuling(env, source, p, ctx, old(Now()))
      ensures ChainOrders(env, source, ctx, old(TheWorld()), verdict)
    {
      ghost var start := TheWorld();
      verdict := EvaluateRules(p, ctx, source);
      RulingIsOrdered(env, source, ctx, start);
    }

    /** Gives the verdict and the counts that the configuration it was compiled from decides. */
    method Evaluate(ctx: Context, ghost sources: seq<Chain<Condition>>) returns (verdict: Verdict)
      requires Corresponds(env, sources, chains) && ConfigWellFormed(env, sources)
      modifies this
      ensures enabled ==>
                var d := Decide(env, sources, defaultPolicy, 0, ctx, old(Now()));
                verdict == d.verdict && Now() == d.gauge
      ensures enabled ==> OnlyJustified(env, sources, defaultPolicy, ctx, old(TheWorld()), verdict)
      ensures !enabled ==> verdict == Verdict.Accept && Now() == old(Now())
    {
      if !enabled {
        return Verdict.Accept;
      }
      DecisionIsOnlyJustified(env, sources, defaultPolicy, ctx, Now());
      for p := 0 to |chains|
        invariant Decide(env, sources, defaultPolicy, 0, ctx, old(Now())) ==
                  Decide(env, sources, defaultPolicy, p, ctx, Now())
      {
        ChainCompiledIsWellFormed(env, sources[p], chains[p]);
        if chains[p].kind == Input {
          var result := EvaluateChain(p, ctx, sources[p]);
          if IsTerminal(result) {
            return result;
          }
        }
      }
      return PolicyVerdict(defaultPolicy);
    }
  }

  method CompileRuleList(env: Env, sources: seq<Rule<Condition>>) returns (r: Result<seq<Rule<Compiled>>, Error>)
    ensures r == CompileRules(env, sources)
    ensures r.Ok? <==> forall i | 0 <= i < |sources| :: RuleWellFormed(env, sources[i])
  {
    RulesCompileIff(env, sources);
    var rules := [];
    for j := 0 to |sources|
      invariant CompileRules(env, sources[..j]) == Ok(rules)
    {
      assert sources[..j + 1][..j] == sources[..j];
      var source := sources[j];
      var conditions := CompileAll(env, source.conditions);
      if conditions.Err? {
        RulesErrEarly(env, sources, j + 1);
        return Err(conditions.error);
      }
      rules := rules + [Rule(source.name, source.enabled, conditions.value, source.action)];
    }
    assert sources[..|sources|] == sources;
    return Ok(rules);
  }

  lemma ChainsNext(env: Env, sources: seq<Chain<Condition>>, i: nat)
    requires i < |sources| && CompileChains(env, sources[..i]).Ok?
    ensures var chain := CompileChain(env, sources[i]);
            CompileChains(env, sources[..i + 1]) ==
            if chain.Err? then Err(chain.error) else Ok(CompileChains(env, sources[..i]).value + [chain.value])
  {
    assert sources[..i + 1][..i] == sources[..i];
  }

  method CompileChainList(env: Env, sources: seq<Chain<Condition>>) returns (r: Result<seq<Chain<Compiled>>, Error>)
    ensures r == CompileChains(env, sources)
    ensures r.Ok? <==> ConfigWellFormed(env, sources)
  {
    ChainsCompileIff(env, sources);
    var chains := [];
    for i := 0 to |sources|
      invariant CompileChains(env, sources[..i]) == Ok(chains)
    {
      ChainsNext(env, sources, i);
      var source := sources[i];
      var rules := CompileRuleList(env, source.rules);
      if rules.Err? {
        ChainsErrEarly(env, sources, i + 1);
        return Err(rules.error);
      }
      chains := chains + [Chain(source.name, source.kind, source.priority, source.policy, rules.value)];
    }
    assert sources[..|sources|] == sources;
    return Ok(chains);
  }

  /** Compiles a configuration: exactly the well-formed ones, chains in order of priority. */
  method FromConfig(env: Env, config: Config) returns (r: Result<CompiledFirewall, Error>)
    ensures r.Ok? <==> ConfigWellFormed(env, config.chains)
    ensures r.Ok? ==>
              var f := r.value;
              && fresh(f) && f.env == env && f.enabled == config.enabled && f.defaultPolicy == config.defaultPolicy
              && Corresponds(env, InOrder(config.chains), f.chains) && ConfigWellFormed(env, InOrder(config.chains))
              && f.Now() == Gauge(World(map[], 0), multiset{})
    ensures r.Ok? ==> exists order :: InPriorityOrder(env, config.chains, r.value.chains, order)
    ensures r.Err? ==> CompileChains(env, config.chains) == Err(r.error)
  {
    var chains := CompileChainList(env, config.chains);
    if chains.Err? {
      return Err(chains.error);
    }
    ChainsCompileEach(env, config.chains);
    SortedCorresponds(env, config.chains, chains.value);
    var f := new CompiledFirewall(env, config.enabled, config.defaultPolicy, InOrder(chains.value));
    forall p | 0 <= p < |f.chains| ensures ChainWellFormed(env, InOrder(config.chains)[p]) {
      ChainCompiledIsWellFormed(env, InOrder(config.chains)[p], f.chains[p]);
    }
    SortedByPriority(env, config.chains, chains.value);
    return Ok(f);
  }
}
