/**
 The rate table over a whole run of the firewall: what deciding any messages
 does to it is a sequence of checks by configured conditions, and each entry is
 the one those checks leave.
 */
module FirewallRateRuns {
  import opened Wrappers
  import opened Firewall
  import opened FirewallEngine
  import opened FirewallRates

  /** What evaluation does to the world: counts against a table entry, or just reads the clock. */
  datatype Effect = Rated(key: RateKey, condition: RateCondition, ctx: Context) | ClockRead

  type KeyedRate = (RateKey, RateCondition)

  function EffectOn(env: Env, w: World, e: Effect): World {
    match e
    case Rated(key, c, ctx) => CheckRate(env, key, c.window, c.threshold, ctx, w).world
    case ClockRead => w.(ticks := w.ticks + 1)
  }

  /** The effects one after the other, whatever one of them does. */
  ghost function PlayWith(step: (World, Effect) -> World, w: World, effects: seq<Effect>): World {
    if effects == [] then w
    else step(PlayWith(step, w, effects[..|effects| - 1]), effects[|effects| - 1])
  }

  ghost function StepOf(env: Env): (World, Effect) -> World {
    (w, e) => EffectOn(env, w, e)
  }

  ghost function Play(env: Env, w: World, effects: seq<Effect>): World {
    PlayWith(StepOf(env), w, effects)
  }

  predicate Configured(effects: seq<Effect>, rates: set<KeyedRate>) {
    forall i | 0 <= i < |effects| && effects[i].Rated? :: (effects[i].key, effects[i].condition) in rates
  }

  lemma PlayWithNext(step: (World, Effect) -> World, w: World, effects: seq<Effect>, e: Effect)
    ensures PlayWith(step, w, effects + [e]) == step(PlayWith(step, w, effects), e)
  {
    assert (effects + [e])[..|effects|] == effects;
  }

  lemma {:induction false} PlayWithAppend(step: (World, Effect) -> World, w: World, a: seq<Effect>, b: seq<Effect>)
    ensures PlayWith(step, w, a + b) == PlayWith(step, PlayWith(step, w, a), b)
    decreases |b|
  {
    if b == [] {
      assert a + b == a;
    } else {
      var rest, last := b[..|b| - 1], b[|b| - 1];
      PlayWithAppend(step, w, a, rest);
      PlayWithNext(step, w, a + rest, last);
      assert a + b == (a + rest) + [last];
    }
  }

  lemma PlayAppend(env: Env, w: World, a: seq<Effect>, b: seq<Effect>)
    ensures Play(env, w, a + b) == Play(env, Play(env, w, a), b)
  {
    PlayWithAppend(StepOf(env), w, a, b);
  }

  lemma PlayOne(env: Env, w: World, e: Effect)
    ensures Play(env, w, [e]) == EffectOn(env, w, e)
  {
    PlayWithNext(StepOf(env), w, [], e);
    assert [] + [e] == [e];
  }

  lemma {:induction false} PlayTicks(env: Env, w: World, effects: seq<Effect>)
    ensures Play(env, w, effects).ticks == w.ticks + |effects|
  {
    if effects != [] {
      PlayTicks(env, w, effects[..|effects| - 1]);
    }
  }

  // -------------------------------------------------------------------------
  // Evaluation is a sequence of effects
  // -------------------------------------------------------------------------

  /** The rate conditions in a condition tree, with their rate keys. */
  function RatesIn(c: Condition): set<KeyedRate>
    decreases c
  {
    match c
    case Simple(check) => if check.Rate? then {(check.key, RateCondition(check.window, check.threshold))} else {}
    case Not(inner) => RatesIn(inner)
    case And(cs) => RatesInAll(cs)
    case Or(cs) => RatesInAll(cs)
    case _ => {}
  }

  function RatesInAll(cs: seq<Condition>): set<KeyedRate>
    decreases cs
  {
    if cs == [] then {} else RatesIn(cs[0]) + RatesInAll(cs[1..])
  }

  /** The effects of evaluating a condition, in order. */
  function EffectsOf(env: Env, c: Condition, ctx: Context, w: World): seq<Effect>
    requires WellFormed(env, c)
    decreases c
  {
    match c
    case Simple(check) =>
      if check.Rate? then [Rated(check.key, RateCondition(check.window, check.threshold), ctx)]
      else if check.DayOfWeek? then [ClockRead]
      else []
    case Time(_, _, _) => [ClockRead]
    case Not(inner) => EffectsOf(env, inner, ctx, w)
    case And(cs) => EffectsUntil(env, cs, false, ctx, w)
    case Or(cs) => EffectsUntil(env, cs, true, ctx, w)
    case _ => []
  }

  /** The same for conditions evaluated up to the first that answers `stop`. */
  function EffectsUntil(env: Env, cs: seq<Condition>, stop: bool, ctx: Context, w: World): seq<Effect>
    requires forall i | 0 <= i < |cs| :: WellFormed(env, cs[i])
    decreases cs
  {
    if cs == [] then []
    else
      var a := Meaning(env, cs[0], ctx, w);
      EffectsOf(env, cs[0], ctx, w) + if a.holds == stop then [] else EffectsUntil(env, cs[1..], stop, ctx, a.world)
  }

  lemma {:induction false} ConditionPlays(env: Env, c: Condition, ctx: Context, w: World)
    requires WellFormed(env, c)
    ensures Play(env, w, EffectsOf(env, c, ctx, w)) == Meaning(env, c, ctx, w).world
    decreases c
  {
    match c
    case Simple(check) =>
      if check.Rate? || check.DayOfWeek? {
        PlayOne(env, w, EffectsOf(env, c, ctx, w)[0]);
      }
    case Time(_, _, _) => PlayOne(env, w, ClockRead);
    case Not(inner) => ConditionPlays(env, inner, ctx, w);
    case And(cs) => UntilPlays(env, cs, false, ctx, w);
    case Or(cs) => UntilPlays(env, cs, true, ctx, w);
    case _ =>
  }

  lemma {:induction false} UntilPlays(env: Env, cs: seq<Condition>, stop: bool, ctx: Context, w: World)
    requires forall i | 0 <= i < |cs| :: WellFormed(env, cs[i])
    ensures Play(env, w, EffectsUntil(env, cs, stop, ctx, w)) == Until(env, cs, stop, ctx, w).world
    decreases cs
  {
    if cs != [] {
      var a := Meaning(env, cs[0], ctx, w);
      ConditionPlays(env, cs[0], ctx, w);
      var first := EffectsOf(env, cs[0], ctx, w);
      if a.holds == stop {
        assert first + [] == first;
      } else {
        UntilPlays(env, cs[1..], stop, ctx, a.world);
        PlayAppend(env, w, first, EffectsUntil(env, cs[1..], stop, ctx, a.world));
      }
    }
  }

  lemma {:induction false} ConditionConfigured(env: Env, c: Condition, ctx: Context, w: World, rates: set<KeyedRate>)
    requires WellFormed(env, c) && RatesIn(c) <= rates
    ensures Configured(EffectsOf(env, c, ctx, w), rates)
    decreases c
  {
    match c
    case Not(inner) => ConditionConfigured(env, inner, ctx, w, rates);
    case And(cs) => UntilConfigured(env, cs, false, ctx, w, rates);
    case Or(cs) => UntilConfigured(env, cs, true, ctx, w, rates);
    case _ =>
  }

  lemma {:induction false} UntilConfigured(env: Env, cs: seq<Condition>, stop: bool, ctx: Context, w: World,
                                           rates: set<KeyedRate>)
    requires (forall i | 0 <= i < |cs| :: WellFormed(env, cs[i])) && RatesInAll(cs) <= rates
    ensures Configured(EffectsUntil(env, cs, stop, ctx, w), rates)
    decreases cs
  {
    if cs != [] {
      var a := Meaning(env, cs[0], ctx, w);
      ConditionConfigured(env, cs[0], ctx, w, rates);
      if a.holds != stop {
        UntilConfigured(env, cs[1..], stop, ctx, a.world, rates);
      }
    }
  }

  lemma UntilOne(env: Env, a: Condition, ctx: Context, w: World)
    requires WellFormed(env, a)
    ensures EffectsUntil(env, [a], false, ctx, w) == EffectsOf(env, a, ctx, w)
    ensures Until(env, [a], false, ctx, w) == Meaning(env, a, ctx, w)
  {
    assert [a][0] == a && [a][1..] == [];
    var first := Meaning(env, a, ctx, w);
    assert EffectsUntil(env, [], false, ctx, first.world) == [];
    assert Until(env, [], false, ctx, first.world) == Answer(true, first.world);
  }

  /** One condition: its own answer and effects. */
  lemma OneCondition(env: Env, a: Condition, ctx: Context, w: World)
    requires WellFormed(env, a)
    ensures EffectsOf(env, Condition.And([a]), ctx, w) == EffectsOf(env, a, ctx, w)
    ensures Meaning(env, Condition.And([a]), ctx, w) == Meaning(env, a, ctx, w)
  {
    UntilOne(env, a, ctx, w);
  }

  lemma UntilTwo(env: Env, a: Condition, b: Condition, ctx: Context, w: World)
    requires WellFormed(env, a) && WellFormed(env, b)
    ensures var first := Meaning(env, a, ctx, w);
            && EffectsUntil(env, [a, b], false, ctx, w) ==
               EffectsOf(env, a, ctx, w) + (if first.holds then EffectsUntil(env, [b], false, ctx, first.world) else [])
            && Until(env, [a, b], false, ctx, w) ==
               if first.holds then Until(env, [b], false, ctx, first.world) else first
  {
    assert [a, b][0] == a && [a, b][1..] == [b];
  }

  /** Two conditions: those of the second follow if the first holds. */
  lemma TwoConditions(env: Env, a: Condition, b: Condition, ctx: Context, w: World)
    requires WellFormed(env, a) && WellFormed(env, b)
    ensures var first := Meaning(env, a, ctx, w);
            && EffectsOf(env, Condition.And([a, b]), ctx, w) ==
               EffectsOf(env, a, ctx, w) + (if first.holds then EffectsOf(env, b, ctx, first.world) else [])
            && Meaning(env, Condition.And([a, b]), ctx, w) ==
               if first.holds then Meaning(env, b, ctx, first.world) else first
  {
    UntilTwo(env, a, b, ctx, w);
    UntilOne(env, b, ctx, Meaning(env, a, ctx, w).world);
  }

  // -------------------------------------------------------------------------
  // Rules, chains and messages
  // -------------------------------------------------------------------------

  /** The effects of a chain from its i-th rule on. */
  function RuleEffects(env: Env, chain: Chain<Condition>, i: nat, ctx: Context, w: World): seq<Effect>
    requires ChainWellFormed(env, chain) && i <= |chain.rules|
    decreases |chain.rules| - i
  {
    if i == |chain.rules| then []
    else if !chain.rules[i].enabled then RuleEffects(env, chain, i + 1, ctx, w)
    else
      assert RuleWellFormed(env, chain.rules[i]);
      var c := Condition.And(chain.rules[i].conditions);
      var a := Meaning(env, c, ctx, w);
      EffectsOf(env, c, ctx, w) + if a.holds then [] else RuleEffects(env, chain, i + 1, ctx, a.world)
  }

  /** The effects of deciding one message from the p-th chain on. */
  function DecideEffects(env: Env, chains: seq<Chain<Condition>>, p: nat, ctx: Context, g: Gauge): seq<Effect>
    requires ConfigWellFormed(env, chains) && p <= |chains|
    decreases |chains| - p
  {
    if p == |chains| then []
    else if chains[p].kind != Input then DecideEffects(env, chains, p + 1, ctx, g)
    else
      var (verdict, g') := ChainRuling(env, chains[p], p, ctx, g);
      RuleEffects(env, chains[p], 0, ctx, g.world) +
      if IsTerminal(verdict) then [] else DecideEffects(env, chains, p + 1, ctx, g')
  }

  const Fresh: Gauge := Gauge(World(map[], 0), multiset{})

  /** The gauge after a new firewall has decided these messages. */
  function AfterMessages(env: Env, chains: seq<Chain<Condition>>, policy: Policy, messages: seq<Context>): Gauge
    requires ConfigWellFormed(env, chains)
  {
    if messages == [] then Fresh
    else
      var n := |messages| - 1;
      Decide(env, chains, policy, 0, messages[n], AfterMessages(env, chains, policy, messages[..n])).gauge
  }

  /** Every check and clock read a new firewall makes while it decides these messages, in order. */
  function MessageEffects(env: Env, chains: seq<Chain<Condition>>, policy: Policy, messages: seq<Context>): seq<Effect>
    requires ConfigWellFormed(env, chains)
  {
    if messages == [] then []
    else
      var n := |messages| - 1;
      MessageEffects(env, chains, policy, messages[..n])
      + DecideEffects(env, chains, 0, messages[n], AfterMessages(env, chains, policy, messages[..n]))
  }

  lemma {:induction false} RulesPlay(env: Env, chain: Chain<Condition>, i: nat, ctx: Context, w: World)
    requires ChainWellFormed(env, chain) && i <= |chain.rules|
    ensures Play(env, w, RuleEffects(env, chain, i, ctx, w)) == Rules(env, chain, i, ctx, w).world
    decreases |chain.rules| - i
  {
    if i < |chain.rules| {
      if !chain.rules[i].enabled {
        RulesPlay(env, chain, i + 1, ctx, w);
      } else {
        assert RuleWellFormed(env, chain.rules[i]);
        var c := Condition.And(chain.rules[i].conditions);
        var a := Meaning(env, c, ctx, w);
        var first := EffectsOf(env, c, ctx, w);
        ConditionPlays(env, c, ctx, w);
        if a.holds {
          assert first + [] == first;
        } else {
          RulesPlay(env, chain, i + 1, ctx, a.world);
          PlayAppend(env, w, first, RuleEffects(env, chain, i + 1, ctx, a.world));
        }
      }
    }
  }

  lemma {:induction false} DecidePlays(env: Env, chains: seq<Chain<Condition>>, policy: Policy, p: nat, ctx: Context,
                                       g: Gauge)
    requires ConfigWellFormed(env, chains) && p <= |chains|
    ensures Play(env, g.world, DecideEffects(env, chains, p, ctx, g)) == Decide(env, chains, policy, p, ctx, g).gauge.world
    decreases |chains| - p
  {
    if p < |chains| {
      if chains[p].kind != Input {
        DecidePlays(env, chains, policy, p + 1, ctx, g);
      } else {
        RulesPlay(env, chains[p], 0, ctx, g.world);
        var first := RuleEffects(env, chains[p], 0, ctx, g.world);
        var (verdict, g') := ChainRuling(env, chains[p], p, ctx, g);
        if IsTerminal(verdict) {
          assert first + [] == first;
        } else {
          DecidePlays(env, chains, policy, p + 1, ctx, g');
          PlayAppend(env, g.world, first, DecideEffects(env, chains, p + 1, ctx, g'));
        }
      }
    }
  }

  /** Playing the trace gives the rate table and the clock as the firewall leaves them. */
  lemma {:induction false} MessagesPlay(env: Env, chains: seq<Chain<Condition>>, policy: Policy, messages: seq<Context>)
    requires ConfigWellFormed(env, chains)
    ensures Play(env, Fresh.world, MessageEffects(env, chains, policy, messages)) ==
            AfterMessages(env, chains, policy, messages).world
  {
    if messages != [] {
      var n := |messages| - 1;
      var g := AfterMessages(env, chains, policy, messages[..n]);
      MessagesPlay(env, chains, policy, messages[..n]);
      DecidePlays(env, chains, policy, 0, messages[n], g);
      PlayAppend(env, Fresh.world, MessageEffects(env, chains, policy, messages[..n]),
                 DecideEffects(env, chains, 0, messages[n], g));
    }
  }

  /** A set that holds every rate condition of the chains. */
  predicate Covers(rates: set<KeyedRate>, chains: seq<Chain<Condition>>) {
    forall p | 0 <= p < |chains| :: ChainCovered(rates, chains[p])
  }

  predicate ChainCovered(rates: set<KeyedRate>, chain: Chain<Condition>) {
    forall i | 0 <= i < |chain.rules| :: RatesInAll(chain.rules[i].conditions) <= rates
  }

  lemma {:induction false} RulesConfigured(env: Env, chain: Chain<Condition>, i: nat, ctx: Context, w: World,
                                           rates: set<KeyedRate>)
    requires ChainWellFormed(env, chain) && i <= |chain.rules| && ChainCovered(rates, chain)
    ensures Configured(RuleEffects(env, chain, i, ctx, w), rates)
    decreases |chain.rules| - i
  {
    if i < |chain.rules| {
      if !chain.rules[i].enabled {
        RulesConfigured(env, chain, i + 1, ctx, w, rates);
      } else {
        assert RuleWellFormed(env, chain.rules[i]);
        var c := Condition.And(chain.rules[i].conditions);
        ConditionConfigured(env, c, ctx, w, rates);
        RulesConfigured(env, chain, i + 1, ctx, Meaning(env, c, ctx, w).world, rates);
      }
    }
  }

  lemma {:induction false} DecideConfigured(env: Env, chains: seq<Chain<Condition>>, p: nat, ctx: Context, g: Gauge,
                                            rates: set<KeyedRate>)
    requires ConfigWellFormed(env, chains) && p <= |chains| && Covers(rates, chains)
    ensures Configured(DecideEffects(env, chains, p, ctx, g), rates)
    decreases |chains| - p
  {
    if p < |chains| {
      if chains[p].kind != Input {
        DecideConfigured(env, chains, p + 1, ctx, g, rates);
      } else {
        RulesConfigured(env, chains[p], 0, ctx, g.world, rates);
        DecideConfigured(env, chains, p + 1, ctx, ChainRuling(env, chains[p], p, ctx, g).1, rates);
      }
    }
  }

  /** The trace holds configured checks only. */
  lemma {:induction false} MessagesConfigured(env: Env, chains: seq<Chain<Condition>>, policy: Policy,
                                              messages: seq<Context>, rates: set<KeyedRate>)
    requires ConfigWellFormed(env, chains) && Covers(rates, chains)
    ensures Configured(MessageEffects(env, chains, policy, messages), rates)
  {
    if messages != [] {
      var n := |messages| - 1;
      MessagesConfigured(env, chains, policy, messages[..n], rates);
      DecideConfigured(env, chains, 0, messages[n], AfterMessages(env, chains, policy, messages[..n]), rates);
    }
  }

  // -------------------------------------------------------------------------
  // One table entry
  // -------------------------------------------------------------------------

  predicate Touches(env: Env, e: Effect, k: string) {
    e.Rated? && TableKey(e.key, KeyValue(env, e.key, e.ctx)) == k
  }

  /** The checks against one table entry, with the times the clock showed. */
  function ChecksOn(env: Env, effects: seq<Effect>, k: string): seq<RateCheck> {
    if effects == [] then []
    else
      var n := |effects| - 1;
      var e := effects[n];
      ChecksOn(env, effects[..n], k) +
      if Touches(env, e, k) then [RateCheck(env.clock(n).mono, e.condition)] else []
  }

  function EntryOf(w: World, k: string): Option<RateState> {
    if k in w.rates then Some(w.rates[k]) else None
  }

  /** Each table entry is the one that the checks against it leave. */
  lemma {:induction false} TableHoldsEntries(env: Env, effects: seq<Effect>, k: string)
    ensures EntryOf(Play(env, Fresh.world, effects), k) == EntryAfter(ChecksOn(env, effects, k))
  {
    if effects != [] {
      var n := |effects| - 1;
      var before := effects[..n];
      TableHoldsEntries(env, before, k);
      PlayTicks(env, Fresh.world, before);
      assert Play(env, Fresh.world, effects) == EffectOn(env, Play(env, Fresh.world, before), effects[n]);
      if Touches(env, effects[n], k) {
        var c := RateCheck(env.clock(n).mono, effects[n].condition);
        assert (ChecksOn(env, before, k) + [c])[..|ChecksOn(env, before, k)|] == ChecksOn(env, before, k);
      } else {
        assert ChecksOn(env, effects, k) == ChecksOn(env, before, k);
      }
    }
  }

  /** A rate condition holds exactly when its check does not stay within the threshold. */
  lemma AnswerIsWithin(env: Env, effects: seq<Effect>, e: Effect, k: string)
    requires Touches(env, e, k)
    ensures var w := Play(env, Fresh.world, effects);
            var checks := ChecksOn(env, effects + [e], k);
            && checks != []
            && (CheckRate(env, e.key, e.condition.window, e.condition.threshold, e.ctx, w).holds <==> !Within(checks))
  {
    TableHoldsEntries(env, effects, k);
    PlayTicks(env, Fresh.world, effects);
    var n := |effects|;
    assert (effects + [e])[..n] == effects;
    var before := ChecksOn(env, effects, k);
    var c := RateCheck(env.clock(n).mono, e.condition);
    assert (before + [c])[..|before|] == before;
  }

  ghost predicate MonotoneClock(env: Env) {
    forall i: nat, j: nat | i <= j :: env.clock(i).mono <= env.clock(j).mono
  }

  /** The conditions on one rate key. */
  function ConditionsOn(rates: set<KeyedRate>, key: RateKey): set<RateCondition> {
    set r | r in rates && r.0 == key :: r.1
  }

  lemma {:induction false} ChecksAreOrdered(env: Env, effects: seq<Effect>, key: RateKey, value: string,
                                            rates: set<KeyedRate>)
    requires MonotoneClock(env) && Configured(effects, rates)
    ensures var checks := ChecksOn(env, effects, TableKey(key, value));
            && Monotone(checks) && DrawnFrom(checks, ConditionsOn(rates, key))
            && forall i | 0 <= i < |checks| :: effects != [] && checks[i].time <= env.clock(|effects| - 1).mono
  {
    if effects != [] {
      var n := |effects| - 1;
      ChecksAreOrdered(env, effects[..n], key, value, rates);
      var e := effects[n];
      if Touches(env, e, TableKey(key, value)) {
        TableKeyInjective(e.key, KeyValue(env, e.key, e.ctx), key, value);
        assert (e.key, e.condition) in rates;
      }
    }
  }

  lemma EffectsAreBounded(env: Env, effects: seq<Effect>, rates: set<KeyedRate>,
                          key: RateKey, who: RateCondition, value: string, from: nat)
    requires MonotoneClock(env) && Configured(effects, rates)
    requires Protected(ConditionsOn(rates, key), who)
    requires effects != [] ==> env.clock(|effects| - 1).mono < from + who.window
    ensures Admitted(ChecksOn(env, effects, TableKey(key, value)), who, from) <= Less(2 * who.threshold)
  {
    ChecksAreOrdered(env, effects, key, value, rates);
    RateIsBounded(ChecksOn(env, effects, TableKey(key, value)), ConditionsOn(rates, key), who, from);
  }

  /** The checks against one table entry among the first n effects of deciding these messages. */
  function ChecksMade(env: Env, chains: seq<Chain<Condition>>, policy: Policy, messages: seq<Context>, n: nat, k: string)
    : seq<RateCheck>
    requires ConfigWellFormed(env, chains) && n <= |MessageEffects(env, chains, policy, messages)|
  {
    ChecksOn(env, MessageEffects(env, chains, policy, messages)[..n], k)
  }

  /** The first n effects all happen before a stretch as long as the window is over. */
  predicate EffectsEndBy(env: Env, n: nat, from: nat, window: nat) {
    n > 0 ==> env.clock(n - 1).mono < from + window
  }

  /**
   In every run of the firewall over any messages, a rate condition that the
   configuration protects admits, for each value of its key, fewer than twice its
   threshold in any stretch shorter than its window.
   */
  lemma FirewallRunIsBounded(env: Env, chains: seq<Chain<Condition>>, policy: Policy, messages: seq<Context>, n: nat,
                             rates: set<KeyedRate>, key: RateKey, who: RateCondition, value: string, from: nat)
    requires ConfigWellFormed(env, chains) && Covers(rates, chains) && MonotoneClock(env)
    requires n <= |MessageEffects(env, chains, policy, messages)| && EffectsEndBy(env, n, from, who.window)
    requires Protected(ConditionsOn(rates, key), who)
    ensures Admitted(ChecksMade(env, chains, policy, messages, n, TableKey(key, value)), who, from) <=
            Less(2 * who.threshold)
  {
    MessagesConfigured(env, chains, policy, messages, rates);
    EffectsAreBounded(env, MessageEffects(env, chains, policy, messages)[..n], rates, key, who, value, from);
  }
}
