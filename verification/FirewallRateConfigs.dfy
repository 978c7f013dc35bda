/**
 What sharing a rate key means for configured firewalls. Which checks can follow
 which depends on the rules around them: where messages select the condition
 that is checked, protection is exactly what bounds a condition; where one
 condition guards the other, an unprotected one may be bounded all the same;
 and in the plainest pair of rules it admits every message.
 */
module FirewallRateConfigs {
  import opened Wrappers
  import opened Firewall
  import opened FirewallEngine
  import opened FirewallRates
  import opened FirewallRateRuns
  import Decimal

  /** Over any messages at any times, the condition keeps below twice its threshold in any stretch shorter than its window. */
  ghost predicate ConfigBounded(chains: seq<Chain<Condition>>, policy: Policy, key: RateKey, who: RateCondition) {
    forall env, messages, n: nat, value, from: nat
      | ConfigWellFormed(env, chains) && MonotoneClock(env)
        && n <= |MessageEffects(env, chains, policy, messages)| && EffectsEndBy(env, n, from, who.window)
      :: Admitted(ChecksMade(env, chains, policy, messages, n, TableKey(key, value)), who, from) <=
         Less(2 * who.threshold)
  }

  /** In any configuration, protection is enough. */
  lemma ProtectedIsBounded(chains: seq<Chain<Condition>>, policy: Policy, rates: set<KeyedRate>, key: RateKey,
                           who: RateCondition)
    requires Covers(rates, chains) && Protected(ConditionsOn(rates, key), who)
    ensures ConfigBounded(chains, policy, key, who)
  {
    forall env, messages, n: nat, value, from: nat
      | ConfigWellFormed(env, chains) && MonotoneClock(env)
        && n <= |MessageEffects(env, chains, policy, messages)| && EffectsEndBy(env, n, from, who.window)
      ensures Admitted(ChecksMade(env, chains, policy, messages, n, TableKey(key, value)), who, from) <=
              Less(2 * who.threshold)
    {
      FirewallRunIsBounded(env, chains, policy, messages, n, rates, key, who, value, from);
    }
  }

  // -------------------------------------------------------------------------
  // Conditions selected by the message
  // -------------------------------------------------------------------------

  function RateOf(key: RateKey, c: RateCondition): Condition {
    Condition.Simple(Check.Rate(key, c.window, c.threshold))
  }

  function SourceIs(tag: string): Condition {
    Condition.Source(StringConfig(StringMatchType.Exact, Some(tag), None, None, false))
  }

  /** The i-th rule checks its rate condition for messages from the i-th source only. */
  function SelectRule(key: RateKey, i: nat, c: RateCondition): Rule<Condition> {
    Rule(None, true, [SourceIs(Decimal.Print(i)), RateOf(key, c)], Action.Drop)
  }

  function SelectChain(key: RateKey, cs: seq<RateCondition>): Chain<Condition> {
    Chain("", Input, 0, Policy.Accept, seq(|cs|, i requires 0 <= i < |cs| => SelectRule(key, i, cs[i])))
  }

  /** A message from the i-th source, alike in all else. */
  function MessageFrom(i: nat): Context {
    Context(Decimal.Print(i), "", Some(""), "", "", 0, 0, 0, 0, None, false)
  }

  lemma SelectIsWellFormed(env: Env, key: RateKey, cs: seq<RateCondition>)
    ensures ConfigWellFormed(env, [SelectChain(key, cs)])
  {
    var chain := SelectChain(key, cs);
    forall i | 0 <= i < |chain.rules| ensures RuleWellFormed(env, chain.rules[i]) {
      assert chain.rules[i] == SelectRule(key, i, cs[i]);
    }
  }

  /** A rule has an effect on messages from its own source only, and then its own check. */
  lemma SelectRuleEffects(env: Env, key: RateKey, c: RateCondition, j: nat, i: nat, w: World)
    ensures RuleWellFormed(env, SelectRule(key, j, c))
    ensures var both := Condition.And(SelectRule(key, j, c).conditions);
            if i == j then EffectsOf(env, both, MessageFrom(i), w) == [Rated(key, c, MessageFrom(i))]
            else EffectsOf(env, both, MessageFrom(i), w) == [] && Meaning(env, both, MessageFrom(i), w) == Answer(false, w)
  {
    var ctx, tag := MessageFrom(i), SourceIs(Decimal.Print(j));
    TwoConditions(env, tag, RateOf(key, c), ctx, w);
    if i != j && Decimal.Print(i) == Decimal.Print(j) {
      Decimal.PrintInjective(i, j);
    }
    assert Meaning(env, tag, ctx, w) == Answer(i == j, w);
    assert EffectsOf(env, tag, ctx, w) == [];
  }

  /** The j-th rule has no effect and does not match, unless it is the i-th, which has the effect e. */
  ghost predicate ActsAlone(env: Env, chain: Chain<Condition>, j: nat, i: nat, ctx: Context, w: World, e: Effect)
    requires ChainWellFormed(env, chain) && j < |chain.rules|
  {
    && chain.rules[j].enabled
    && RuleWellFormed(env, chain.rules[j])
    && var c := Condition.And(chain.rules[j].conditions);
       if j == i then EffectsOf(env, c, ctx, w) == [e]
       else EffectsOf(env, c, ctx, w) == [] && Meaning(env, c, ctx, w) == Answer(false, w)
  }

  lemma {:induction false} OneRuleActs(env: Env, chain: Chain<Condition>, j: nat, i: nat, ctx: Context, w: World, e: Effect)
    requires ChainWellFormed(env, chain) && i < |chain.rules| && j <= |chain.rules|
    requires forall j: nat, w | j < |chain.rules| :: ActsAlone(env, chain, j, i, ctx, w, e)
    ensures RuleEffects(env, chain, j, ctx, w) == if j <= i then [e] else []
    decreases |chain.rules| - j
  {
    if j < |chain.rules| {
      assert ActsAlone(env, chain, j, i, ctx, w, e);
      var a := Meaning(env, Condition.And(chain.rules[j].conditions), ctx, w);
      OneRuleActs(env, chain, j + 1, i, ctx, a.world, e);
    }
  }

  lemma SelectedEffects(env: Env, key: RateKey, cs: seq<RateCondition>, i: nat, w: World)
    requires i < |cs| && ChainWellFormed(env, SelectChain(key, cs))
    ensures RuleEffects(env, SelectChain(key, cs), 0, MessageFrom(i), w) == [Rated(key, cs[i], MessageFrom(i))]
  {
    var chain, e := SelectChain(key, cs), Rated(key, cs[i], MessageFrom(i));
    forall j: nat, w | j < |chain.rules| ensures ActsAlone(env, chain, j, i, MessageFrom(i), w, e) {
      assert chain.rules[j] == SelectRule(key, j, cs[j]);
      SelectRuleEffects(env, key, cs[j], j, i, w);
    }
    OneRuleActs(env, chain, 0, i, MessageFrom(i), w, e);
  }

  /** Deciding a message makes the one check its source selects. */
  lemma SelectedDecision(env: Env, key: RateKey, cs: seq<RateCondition>, i: nat, g: Gauge)
    requires i < |cs| && ConfigWellFormed(env, [SelectChain(key, cs)])
    ensures DecideEffects(env, [SelectChain(key, cs)], 0, MessageFrom(i), g) == [Rated(key, cs[i], MessageFrom(i))]
  {
    var chain := SelectChain(key, cs);
    assert [chain][0] == chain;
    SelectedEffects(env, key, cs, i, g.world);
    OnlyChain(env, chain, MessageFrom(i), g);
  }

  /** With one chain, what its rules do is all that happens. */
  lemma OnlyChain(env: Env, chain: Chain<Condition>, ctx: Context, g: Gauge)
    requires ConfigWellFormed(env, [chain]) && chain.kind == Input
    ensures ChainWellFormed(env, chain)
    ensures DecideEffects(env, [chain], 0, ctx, g) == RuleEffects(env, chain, 0, ctx, g.world)
  {
    assert [chain][0] == chain;
    var (verdict, g') := ChainRuling(env, chain, 0, ctx, g);
    assert DecideEffects(env, [chain], 1, ctx, g') == [];
  }

  /** If every message has one known effect, whatever came before, these are the trace. */
  lemma {:induction false} OneEffectEach(env: Env, chains: seq<Chain<Condition>>, policy: Policy, messages: seq<Context>,
                                         trace: seq<Effect>)
    requires ConfigWellFormed(env, chains) && |trace| == |messages|
    requires forall m, g | 0 <= m < |messages| :: DecideEffects(env, chains, 0, messages[m], g) == [trace[m]]
    ensures MessageEffects(env, chains, policy, messages) == trace
  {
    if messages != [] {
      var n := |messages| - 1;
      OneEffectEach(env, chains, policy, messages[..n], trace[..n]);
      assert DecideEffects(env, chains, 0, messages[n], AfterMessages(env, chains, policy, messages[..n])) == [trace[n]];
      assert trace == trace[..n] + [trace[n]];
    }
  }

  function MessagesFrom(sources: seq<nat>): seq<Context> {
    seq(|sources|, m requires 0 <= m < |sources| => MessageFrom(sources[m]))
  }

  predicate SourcesIn(sources: seq<nat>, n: nat) {
    forall m | 0 <= m < |sources| :: sources[m] < n
  }

  function SelectedTrace(key: RateKey, cs: seq<RateCondition>, sources: seq<nat>): seq<Effect>
    requires SourcesIn(sources, |cs|)
  {
    seq(|sources|, m requires 0 <= m < |sources| => Rated(key, cs[sources[m]], MessageFrom(sources[m])))
  }

  lemma SelectedMessages(env: Env, key: RateKey, cs: seq<RateCondition>, policy: Policy, sources: seq<nat>)
    requires SourcesIn(sources, |cs|) && ConfigWellFormed(env, [SelectChain(key, cs)])
    ensures MessageEffects(env, [SelectChain(key, cs)], policy, MessagesFrom(sources)) == SelectedTrace(key, cs, sources)
  {
    var chains, messages, trace := [SelectChain(key, cs)], MessagesFrom(sources), SelectedTrace(key, cs, sources);
    forall m, g | 0 <= m < |messages| ensures DecideEffects(env, chains, 0, messages[m], g) == [trace[m]] {
      SelectedDecision(env, key, cs, sources[m], g);
    }
    OneEffectEach(env, chains, policy, messages, trace);
  }

  function SelectedChecks(env: Env, cs: seq<RateCondition>, sources: seq<nat>): seq<RateCheck>
    requires SourcesIn(sources, |cs|)
  {
    seq(|sources|, m requires 0 <= m < |sources| => RateCheck(env.clock(m).mono, cs[sources[m]]))
  }

  /** All of them are checks of one table entry. */
  lemma {:induction false} SelectedOnOneEntry(env: Env, key: RateKey, cs: seq<RateCondition>, sources: seq<nat>)
    requires SourcesIn(sources, |cs|) && !key.Source?
    ensures ChecksOn(env, SelectedTrace(key, cs, sources), TableKey(key, KeyValue(env, key, MessageFrom(0)))) ==
            SelectedChecks(env, cs, sources)
  {
    if sources != [] {
      var n, k := |sources| - 1, TableKey(key, KeyValue(env, key, MessageFrom(0)));
      var rest, last := sources[..n], sources[n];
      var before, e := SelectedTrace(key, cs, rest), Rated(key, cs[last], MessageFrom(last));
      SelectedOnOneEntry(env, key, cs, rest);
      SameEntry(env, key, cs[last], last);
      NextCheckOn(env, before, e, k);
      TraceSnoc(env, key, cs, sources);
    }
  }

  lemma TraceSnoc(env: Env, key: RateKey, cs: seq<RateCondition>, sources: seq<nat>)
    requires SourcesIn(sources, |cs|) && sources != []
    ensures var n := |sources| - 1;
            && SelectedTrace(key, cs, sources) ==
               SelectedTrace(key, cs, sources[..n]) + [Rated(key, cs[sources[n]], MessageFrom(sources[n]))]
            && SelectedChecks(env, cs, sources) ==
               SelectedChecks(env, cs, sources[..n]) + [RateCheck(env.clock(n).mono, cs[sources[n]])]
  {}

  lemma SameEntry(env: Env, key: RateKey, c: RateCondition, i: nat)
    requires !key.Source?
    ensures Touches(env, Rated(key, c, MessageFrom(i)), TableKey(key, KeyValue(env, key, MessageFrom(0))))
  {}

  /** A clock that shows these times one after the other. */
  function ClockOf(checks: seq<RateCheck>): nat -> Instant {
    (i: nat) => Instant(if |checks| == 0 then 0 else if i < |checks| then checks[i].time else checks[|checks| - 1].time, 0, 0)
  }

  function EnvOf(checks: seq<RateCheck>): Env {
    Env(_ => true, (_, _) => false, s => s, _ => None, _ => None, _ => "", map[], ClockOf(checks))
  }

  function ConditionSet(cs: seq<RateCondition>): set<RateCondition> {
    set c | c in cs
  }

  /** The sources that select these checks. */
  function SourcesOf(checks: seq<RateCheck>, cs: seq<RateCondition>): (sources: seq<nat>)
    requires DrawnFrom(checks, ConditionSet(cs))
    ensures |sources| == |checks| && SourcesIn(sources, |cs|)
    ensures forall m | 0 <= m < |checks| :: cs[sources[m]] == checks[m].condition
  {
    if checks == [] then []
    else
      assert checks[|checks| - 1].condition in cs;
      SourcesOf(checks[..|checks| - 1], cs) + [IndexOf(cs, checks[|checks| - 1].condition)]
  }

  function IndexOf(cs: seq<RateCondition>, c: RateCondition): (i: nat)
    requires c in cs
    ensures i < |cs| && cs[i] == c
  {
    if cs[0] == c then 0 else 1 + IndexOf(cs[1..], c)
  }

  lemma EnvOfIsMonotone(checks: seq<RateCheck>)
    requires Monotone(checks)
    ensures MonotoneClock(EnvOf(checks))
  {}

  /** Any checks by the conditions, at any times, are made for some messages. */
  lemma ChecksAreMade(key: RateKey, cs: seq<RateCondition>, policy: Policy, checks: seq<RateCheck>)
    returns (messages: seq<Context>)
    requires DrawnFrom(checks, ConditionSet(cs)) && !key.Source?
    ensures ConfigWellFormed(EnvOf(checks), [SelectChain(key, cs)])
    ensures |MessageEffects(EnvOf(checks), [SelectChain(key, cs)], policy, messages)| == |checks|
    ensures ChecksMade(EnvOf(checks), [SelectChain(key, cs)], policy, messages, |checks|,
                       TableKey(key, KeyValue(EnvOf(checks), key, MessageFrom(0)))) == checks
  {
    var env, sources := EnvOf(checks), SourcesOf(checks, cs);
    messages := MessagesFrom(sources);
    SelectIsWellFormed(env, key, cs);
    SelectedMessages(env, key, cs, policy, sources);
    SelectedOnOneEntry(env, key, cs, sources);
    var trace := SelectedTrace(key, cs, sources);
    assert trace[..|checks|] == trace;
    assert SelectedChecks(env, cs, sources) == checks;
  }

  function SelectRates(key: RateKey, cs: seq<RateCondition>): set<KeyedRate> {
    set c | c in cs :: (key, c)
  }

  lemma SelectIsCovered(key: RateKey, cs: seq<RateCondition>)
    ensures Covers(SelectRates(key, cs), [SelectChain(key, cs)])
    ensures ConditionsOn(SelectRates(key, cs), key) == ConditionSet(cs)
  {
    var rates, chain := SelectRates(key, cs), SelectChain(key, cs);
    forall i | 0 <= i < |chain.rules| ensures RatesInAll(chain.rules[i].conditions) <= rates {
      assert chain.rules[i] == SelectRule(key, i, cs[i]);
      var conditions := chain.rules[i].conditions;
      assert conditions[1..] == [RateOf(key, cs[i])] && conditions[1..][1..] == [];
      assert RatesInAll(conditions[1..]) == {(key, cs[i])};
      assert cs[i] in cs;
    }
    forall c | c in cs ensures c in ConditionsOn(rates, key) {
      assert (key, c) in rates;
    }
  }

  /**
   For any rate conditions, in the configuration whose messages select which of
   them is checked: one of them is bounded over all messages if and only if the
   others on its key leave its window alone.
   */
  lemma SelectedIsBoundedIffProtected(key: RateKey, cs: seq<RateCondition>, policy: Policy, who: RateCondition)
    requires who in cs && !key.Source?
    ensures ConfigBounded([SelectChain(key, cs)], policy, key, who) <==> Protected(ConditionSet(cs), who)
  {
    var chains := [SelectChain(key, cs)];
    if Protected(ConditionSet(cs), who) {
      SelectIsCovered(key, cs);
      ProtectedIsBounded(chains, policy, SelectRates(key, cs), key, who);
    } else {
      var checks, from := UnprotectedBreaks(ConditionSet(cs), who);
      var env := EnvOf(checks);
      var messages := ChecksAreMade(key, cs, policy, checks);
      EnvOfIsMonotone(checks);
      var value := KeyValue(env, key, MessageFrom(0));
      assert EffectsEndBy(env, |checks|, from, who.window);
      assert Admitted(ChecksMade(env, chains, policy, messages, |checks|, TableKey(key, value)), who, from) >
             Less(2 * who.threshold);
    }
  }

  // -------------------------------------------------------------------------
  // Two rules, one condition each
  // -------------------------------------------------------------------------

  function PlainRule(key: RateKey, c: RateCondition): Rule<Condition> {
    Rule(None, true, [RateOf(key, c)], Action.Drop)
  }

  function PlainPair(key: RateKey, fast: RateCondition, slow: RateCondition): Chain<Condition> {
    Chain("", Input, 0, Policy.Accept, [PlainRule(key, fast), PlainRule(key, slow)])
  }

  lemma PairIsWellFormed(env: Env, key: RateKey, fast: RateCondition, slow: RateCondition)
    ensures ConfigWellFormed(env, [PlainPair(key, fast, slow)]) && ChainWellFormed(env, PlainPair(key, fast, slow))
  {
    var chain := PlainPair(key, fast, slow);
    forall i | 0 <= i < |chain.rules| ensures RuleWellFormed(env, chain.rules[i]) {
      assert chain.rules[i] == PlainRule(key, if i == 0 then fast else slow);
    }
    assert ChainWellFormed(env, chain);
  }

  /** Messages come `step` apart, and both checks of one read the same time. */
  function PairEnv(step: nat): Env {
    Env(_ => true, (_, _) => false, s => s, _ => None, _ => None, _ => "", map[], (i: nat) => Instant((i / 2) * step, 0, 0))
  }

  function SameMessages(n: nat): seq<Context> {
    seq(n, _ => MessageFrom(0))
  }

  function PairKey(key: RateKey, step: nat): string {
    TableKey(key, KeyValue(PairEnv(step), key, MessageFrom(0)))
  }

  predicate Pairing(fast: RateCondition, slow: RateCondition) {
    fast != slow && fast.threshold >= 1 && slow.threshold >= 2 && slow.window >= 1
  }

  /** The world when n messages have been decided. */
  function PairWorld(key: RateKey, step: nat, n: nat): World {
    if n == 0 then Fresh.world else World(map[PairKey(key, step) := RateState(2, (n - 1) * step)], 2 * n)
  }

  function PairEffects(key: RateKey, fast: RateCondition, slow: RateCondition, n: nat): seq<Effect> {
    Repeat([Rated(key, fast, MessageFrom(0)), Rated(key, slow, MessageFrom(0))], n)
  }

  function Repeat(part: seq<Effect>, n: nat): seq<Effect> {
    if n == 0 then [] else Repeat(part, n - 1) + part
  }

  /** From the n-th world, the message has these effects and leads to the next world. */
  ghost predicate GoesOn(env: Env, chains: seq<Chain<Condition>>, policy: Policy, ctx: Context, part: seq<Effect>,
                         world: nat -> World, n: nat, g: Gauge)
    requires ConfigWellFormed(env, chains)
  {
    g.world == world(n) ==>
      DecideEffects(env, chains, 0, ctx, g) == part && Decide(env, chains, policy, 0, ctx, g).gauge.world == world(n + 1)
  }

  lemma {:induction false} SameEachTime(env: Env, chains: seq<Chain<Condition>>, policy: Policy, ctx: Context,
                                        part: seq<Effect>, world: nat -> World, n: nat)
    requires ConfigWellFormed(env, chains) && world(0) == Fresh.world
    requires forall m: nat, g :: GoesOn(env, chains, policy, ctx, part, world, m, g)
    ensures MessageEffects(env, chains, policy, seq(n, _ => ctx)) == Repeat(part, n)
    ensures AfterMessages(env, chains, policy, seq(n, _ => ctx)).world == world(n)
  {
    var messages := seq(n, _ => ctx);
    if n > 0 {
      var before := seq(n - 1, _ => ctx);
      assert messages[..n - 1] == before;
      SameEachTime(env, chains, policy, ctx, part, world, n - 1);
      assert GoesOn(env, chains, policy, ctx, part, world, n - 1, AfterMessages(env, chains, policy, before));
    }
  }

  lemma PairTime(step: nat, n: nat)
    ensures PairEnv(step).clock(2 * n).mono == PairEnv(step).clock(2 * n + 1).mono == n * step
    ensures n > 0 ==> n * step == (n - 1) * step + step
  {}

  /** The first check starts the window over, the second counts two: neither condition holds. */
  lemma PairChecks(key: RateKey, fast: RateCondition, slow: RateCondition, n: nat)
    requires Pairing(fast, slow)
    ensures var env, ctx := PairEnv(fast.window), MessageFrom(0);
            var w := PairWorld(key, fast.window, n);
            var a := CheckRate(env, key, fast.window, fast.threshold, ctx, w);
            var b := CheckRate(env, key, slow.window, slow.threshold, ctx, a.world);
            !a.holds && !b.holds && b.world == PairWorld(key, fast.window, n + 1)
  {
    PairTime(fast.window, n);
    var env, ctx, k := PairEnv(fast.window), MessageFrom(0), PairKey(key, fast.window);
    var w, now := PairWorld(key, fast.window, n), n * fast.window;
    var a := CheckRate(env, key, fast.window, fast.threshold, ctx, w);
    assert a.world == World(map[k := RateState(1, now)], 2 * n + 1);
    var b := CheckRate(env, key, slow.window, slow.threshold, ctx, a.world);
    assert b.world == World(map[k := RateState(2, now)], 2 * n + 2);
  }

  lemma PlainRuleEffects(env: Env, key: RateKey, c: RateCondition, ctx: Context, w: World)
    ensures RuleWellFormed(env, PlainRule(key, c))
    ensures var all := Condition.And(PlainRule(key, c).conditions);
            && EffectsOf(env, all, ctx, w) == [Rated(key, c, ctx)]
            && Meaning(env, all, ctx, w) == CheckRate(env, key, c.window, c.threshold, ctx, w)
  {
    OneCondition(env, RateOf(key, c), ctx, w);
  }

  lemma PairRuling(key: RateKey, fast: RateCondition, slow: RateCondition, n: nat)
    requires Pairing(fast, slow) && ChainWellFormed(PairEnv(fast.window), PlainPair(key, fast, slow))
    ensures var env, ctx, chain := PairEnv(fast.window), MessageFrom(0), PlainPair(key, fast, slow);
            var w := PairWorld(key, fast.window, n);
            && RuleEffects(env, chain, 0, ctx, w) == [Rated(key, fast, ctx), Rated(key, slow, ctx)]
            && Rules(env, chain, 0, ctx, w) == Ruling(Verdict.Accept, None, PairWorld(key, fast.window, n + 1))
  {
    var env, ctx, chain := PairEnv(fast.window), MessageFrom(0), PlainPair(key, fast, slow);
    var w := PairWorld(key, fast.window, n);
    PairChecks(key, fast, slow, n);
    var a := CheckRate(env, key, fast.window, fast.threshold, ctx, w);
    var b := CheckRate(env, key, slow.window, slow.threshold, ctx, a.world);
    PlainRuleEffects(env, key, fast, ctx, w);
    PlainRuleEffects(env, key, slow, ctx, a.world);
    assert Rules(env, chain, 2, ctx, b.world) == Ruling(Verdict.Accept, None, b.world);
    assert Rules(env, chain, 1, ctx, a.world) == Rules(env, chain, 2, ctx, b.world);
    assert RuleEffects(env, chain, 2, ctx, b.world) == [];
    assert RuleEffects(env, chain, 1, ctx, a.world) == [Rated(key, slow, ctx)];
  }

  lemma PairTrace(key: RateKey, fast: RateCondition, slow: RateCondition, policy: Policy, n: nat)
    requires Pairing(fast, slow) && ConfigWellFormed(PairEnv(fast.window), [PlainPair(key, fast, slow)])
    ensures MessageEffects(PairEnv(fast.window), [PlainPair(key, fast, slow)], policy, SameMessages(n)) ==
            PairEffects(key, fast, slow, n)
  {
    var env, chains, ctx := PairEnv(fast.window), [PlainPair(key, fast, slow)], MessageFrom(0);
    var part := [Rated(key, fast, ctx), Rated(key, slow, ctx)];
    var world := (m: nat) => PairWorld(key, fast.window, m);
    forall m: nat, g ensures GoesOn(env, chains, policy, ctx, part, world, m, g) {
      if g.world == world(m) {
        PairMessage(key, fast, slow, policy, m, g);
      }
    }
    SameEachTime(env, chains, policy, ctx, part, world, n);
    assert SameMessages(n) == seq(n, _ => ctx);
  }

  lemma PairMessage(key: RateKey, fast: RateCondition, slow: RateCondition, policy: Policy, n: nat, g: Gauge)
    requires Pairing(fast, slow) && ConfigWellFormed(PairEnv(fast.window), [PlainPair(key, fast, slow)])
    requires g.world == PairWorld(key, fast.window, n)
    ensures var env, chains, ctx := PairEnv(fast.window), [PlainPair(key, fast, slow)], MessageFrom(0);
            && DecideEffects(env, chains, 0, ctx, g) == [Rated(key, fast, ctx), Rated(key, slow, ctx)]
            && Decide(env, chains, policy, 0, ctx, g).gauge.world == PairWorld(key, fast.window, n + 1)
  {
    var env, chain := PairEnv(fast.window), PlainPair(key, fast, slow);
    OnlyChain(env, chain, MessageFrom(0), g);
    PairRuling(key, fast, slow, n);
    OnlyChainDecides(env, chain, policy, MessageFrom(0), g);
  }

  lemma OnlyChainDecides(env: Env, chain: Chain<Condition>, policy: Policy, ctx: Context, g: Gauge)
    requires ConfigWellFormed(env, [chain]) && ChainWellFormed(env, chain) && chain.kind == Input
    ensures Decide(env, [chain], policy, 0, ctx, g).gauge.world == Rules(env, chain, 0, ctx, g.world).world
  {
    assert [chain][0] == chain;
    var (verdict, g') := ChainRuling(env, chain, 0, ctx, g);
    assert Decide(env, [chain], policy, 1, ctx, g').gauge == g';
  }

  function ChecksOfPairs(fast: RateCondition, slow: RateCondition, n: nat): seq<RateCheck> {
    if n == 0 then []
    else
      ChecksOfPairs(fast, slow, n - 1)
      + [RateCheck((n - 1) * fast.window, fast)] + [RateCheck((n - 1) * fast.window, slow)]
  }

  /** Both effects touch the entry, so both are checks of it. */
  lemma TwoChecksOn(env: Env, before: seq<Effect>, mid: seq<Effect>, after: seq<Effect>, f: Effect, s: Effect, k: string)
    requires Touches(env, f, k) && Touches(env, s, k) && mid == before + [f] && after == mid + [s]
    ensures ChecksOn(env, after, k) ==
            ChecksOn(env, before, k) + [RateCheck(env.clock(|before|).mono, f.condition)]
            + [RateCheck(env.clock(|before| + 1).mono, s.condition)]
  {
    NextCheckOn(env, before, f, k);
    NextCheckOn(env, mid, s, k);
  }

  lemma PushBoth(before: seq<Effect>, f: Effect, s: Effect)
    ensures before + [f, s] == before + [f] + [s]
  {}

  /** After n messages, one more brings a check by each condition, both at n windows of the first. */
  ghost predicate AddsPair(checks: seq<Effect> -> seq<RateCheck>, part: seq<Effect>, fast: RateCondition,
                           slow: RateCondition, before: seq<Effect>, n: nat)
  {
    |before| == 2 * n ==>
      checks(before + part) ==
      checks(before) + [RateCheck(n * fast.window, fast)] + [RateCheck(n * fast.window, slow)]
  }

  lemma {:induction false} RepeatsAdd(checks: seq<Effect> -> seq<RateCheck>, part: seq<Effect>, fast: RateCondition,
                                      slow: RateCondition, n: nat)
    requires |part| == 2 && checks([]) == []
    requires forall before, m: nat :: AddsPair(checks, part, fast, slow, before, m)
    ensures |Repeat(part, n)| == 2 * n && checks(Repeat(part, n)) == ChecksOfPairs(fast, slow, n)
  {
    if n > 0 {
      RepeatsAdd(checks, part, fast, slow, n - 1);
      assert AddsPair(checks, part, fast, slow, Repeat(part, n - 1), n - 1);
    }
  }

  lemma RepeatsOnOneEntry(env: Env, f: Effect, s: Effect, k: string, n: nat)
    requires Touches(env, f, k) && Touches(env, s, k)
    requires forall m: nat :: PairClock(env, f.condition.window, m)
    ensures |Repeat([f, s], n)| == 2 * n
    ensures ChecksOn(env, Repeat([f, s], n), k) == ChecksOfPairs(f.condition, s.condition, n)
  {
    var checks := (effects: seq<Effect>) => ChecksOn(env, effects, k);
    forall before, m: nat ensures AddsPair(checks, [f, s], f.condition, s.condition, before, m) {
      assert PairClock(env, f.condition.window, m);
      PushBoth(before, f, s);
      TwoChecksOn(env, before, before + [f], before + [f, s], f, s, k);
    }
    RepeatsAdd(checks, [f, s], f.condition, s.condition, n);
  }

  /** Both checks of the n-th message read n times the step. */
  predicate PairClock(env: Env, step: nat, n: nat) {
    env.clock(2 * n).mono == env.clock(2 * n + 1).mono == n * step
  }

  lemma PairsOnOneEntry(key: RateKey, fast: RateCondition, slow: RateCondition, n: nat)
    ensures |PairEffects(key, fast, slow, n)| == 2 * n
    ensures ChecksOn(PairEnv(fast.window), PairEffects(key, fast, slow, n), PairKey(key, fast.window)) ==
            ChecksOfPairs(fast, slow, n)
  {
    forall m: nat ensures PairClock(PairEnv(fast.window), fast.window, m) {
      PairTime(fast.window, m);
    }
    RepeatsOnOneEntry(PairEnv(fast.window), Rated(key, fast, MessageFrom(0)), Rated(key, slow, MessageFrom(0)),
                      PairKey(key, fast.window), n);
  }

  lemma NextCheckOn(env: Env, effects: seq<Effect>, e: Effect, k: string)
    requires Touches(env, e, k)
    ensures ChecksOn(env, effects + [e], k) ==
            ChecksOn(env, effects, k) + [RateCheck(env.clock(|effects|).mono, e.condition)]
  {
    assert (effects + [e])[..|effects|] == effects;
  }

  /** One message more: its first check starts the window over, its second is admitted. */
  lemma NextPair(checks: seq<RateCheck>, fast: RateCondition, slow: RateCondition, n: nat, last: nat, t: nat)
    requires Pairing(fast, slow) && t == last + fast.window
    requires Stands(checks, {fast, slow}, slow, 0, RateState(2, last), n, last)
    ensures Stands(checks + [RateCheck(t, fast)] + [RateCheck(t, slow)], {fast, slow}, slow, 0, RateState(2, t), n + 1, t)
  {
    var both := {fast, slow};
    NextCheck(checks, both, slow, 0, RateState(2, last), n, last, RateCheck(t, fast));
    NextCheck(checks + [RateCheck(t, fast)], both, slow, 0, RateState(1, t), n, t, RateCheck(t, slow));
  }

  lemma FirstPair(fast: RateCondition, slow: RateCondition)
    requires Pairing(fast, slow)
    ensures Stands([RateCheck(0, fast)] + [RateCheck(0, slow)], {fast, slow}, slow, 0, RateState(2, 0), 1, 0)
  {
    FirstCheck({fast, slow}, slow, 0, fast, 0);
    NextCheck([RateCheck(0, fast)], {fast, slow}, slow, 0, RateState(1, 0), 0, 0, RateCheck(0, slow));
  }

  /** Each message's second check is admitted. */
  lemma {:induction false} PairsAreAdmitted(fast: RateCondition, slow: RateCondition, n: nat)
    requires Pairing(fast, slow) && n > 0
    ensures Stands(ChecksOfPairs(fast, slow, n), {fast, slow}, slow, 0, RateState(2, (n - 1) * fast.window), n,
                   (n - 1) * fast.window)
  {
    var m := n - 1;
    var before := ChecksOfPairs(fast, slow, m);
    if m == 0 {
      FirstPair(fast, slow);
      assert before + [RateCheck(0, fast)] + [RateCheck(0, slow)] == [RateCheck(0, fast)] + [RateCheck(0, slow)];
      assert ChecksOfPairs(fast, slow, 1) == before + [RateCheck(0, fast)] + [RateCheck(0, slow)];
    } else {
      PairsAreAdmitted(fast, slow, m);
      PairTime(fast.window, m);
      NextPair(before, fast, slow, m, (m - 1) * fast.window, m * fast.window);
    }
  }

  /**
   One rule per condition, on the same key: if messages with the same value come
   as far apart as the first condition's window, each of them starts the window
   over, and the second condition admits them all, however long its own window.
   */
  lemma PairAdmitsAll(key: RateKey, fast: RateCondition, slow: RateCondition, policy: Policy, n: nat)
    requires Pairing(fast, slow) && n > 0
    ensures var env, chains := PairEnv(fast.window), [PlainPair(key, fast, slow)];
            && ConfigWellFormed(env, chains) && MonotoneClock(env)
            && |MessageEffects(env, chains, policy, SameMessages(n))| == 2 * n
            && env.clock(2 * n - 1).mono == (n - 1) * fast.window
            && Admitted(ChecksMade(env, chains, policy, SameMessages(n), 2 * n, PairKey(key, fast.window)), slow, 0) == n
  {
    var env := PairEnv(fast.window);
    PairIsWellFormed(env, key, fast, slow);
    PairTrace(key, fast, slow, policy, n);
    PairsOnOneEntry(key, fast, slow, n);
    PairsAreAdmitted(fast, slow, n);
    PairTime(fast.window, n - 1);
    PairEnvIsMonotone(fast.window);
    assert PairEffects(key, fast, slow, n)[..2 * n] == PairEffects(key, fast, slow, n);
  }

  /** A limit of two per hundred ticks, behind one of two per tick, admits a message at each of a hundred ticks. */
  lemma SharedKeyBreaks(key: RateKey, policy: Policy)
    ensures var slow, env := RateCondition(100, 2), PairEnv(1);
            var chains := [PlainPair(key, RateCondition(1, 2), slow)];
            && ConfigWellFormed(env, chains) && MonotoneClock(env)
            && |MessageEffects(env, chains, policy, SameMessages(100))| == 200 && EffectsEndBy(env, 200, 0, 100)
            && Admitted(ChecksMade(env, chains, policy, SameMessages(100), 200, PairKey(key, 1)), slow, 0) == 100
  {
    PairAdmitsAll(key, RateCondition(1, 2), RateCondition(100, 2), policy, 100);
  }

  lemma PairEnvIsMonotone(step: nat)
    ensures MonotoneClock(PairEnv(step))
  {
    forall i: nat, j: nat | i <= j ensures PairEnv(step).clock(i).mono <= PairEnv(step).clock(j).mono {
      Times(i / 2, j / 2, step);
    }
  }

  lemma Times(a: nat, b: nat, step: nat)
    requires a <= b
    ensures a * step <= b * step
  {
    assert (b - a) * step >= 0;
  }

  /** So no number bounds what a threshold of two admits within its window. */
  lemma PairHasNoBound(key: RateKey, policy: Policy, bound: nat) returns (slow: RateCondition, messages: seq<Context>)
    ensures slow.threshold == 2
    ensures var env, chains := PairEnv(1), [PlainPair(key, RateCondition(1, 2), slow)];
            var n := 2 * |messages|;
            && ConfigWellFormed(env, chains) && MonotoneClock(env)
            && n <= |MessageEffects(env, chains, policy, messages)| && EffectsEndBy(env, n, 0, slow.window)
            && Admitted(ChecksMade(env, chains, policy, messages, n, PairKey(key, 1)), slow, 0) > bound
  {
    slow := RateCondition(bound + 2, 2);
    messages := SameMessages(bound + 1);
    PairAdmitsAll(key, RateCondition(1, 2), slow, policy, bound + 1);
  }

  // -------------------------------------------------------------------------
  // One condition behind the other
  // -------------------------------------------------------------------------

  function GuardChain(key: RateKey, fast: RateCondition, slow: RateCondition): Chain<Condition> {
    Chain("", Input, 0, Policy.Accept, [Rule(None, true, [RateOf(key, fast), RateOf(key, slow)], Action.Drop)])
  }

  function KeyFor(env: Env, key: RateKey, ctx: Context): string {
    TableKey(key, KeyValue(env, key, ctx))
  }

  /** A check by the first condition, or one by the second just after the first was exceeded for the same message. */
  predicate GuardedAt(env: Env, key: RateKey, fast: RateCondition, slow: RateCondition, effects: seq<Effect>, i: nat)
    requires i < |effects|
  {
    && effects[i].Rated? && effects[i].key == key
    && (effects[i].condition == fast ||
        (&& effects[i].condition == slow && i > 0 && effects[i - 1] == Rated(key, fast, effects[i].ctx)
         && var e := EntryAfter(ChecksOn(env, effects[..i], KeyFor(env, key, effects[i].ctx)));
            e.Some? && e.value.count > fast.threshold))
  }

  predicate GuardedTrace(env: Env, key: RateKey, fast: RateCondition, slow: RateCondition, effects: seq<Effect>) {
    forall i | 0 <= i < |effects| :: GuardedAt(env, key, fast, slow, effects, i)
  }

  lemma GuardedGrows(env: Env, key: RateKey, fast: RateCondition, slow: RateCondition, effects: seq<Effect>, e: Effect)
    requires GuardedTrace(env, key, fast, slow, effects) && GuardedAt(env, key, fast, slow, effects + [e], |effects|)
    ensures GuardedTrace(env, key, fast, slow, effects + [e])
  {
    forall i | 0 <= i < |effects| ensures GuardedAt(env, key, fast, slow, effects + [e], i) {
      assert GuardedAt(env, key, fast, slow, effects, i);
      assert (effects + [e])[..i] == effects[..i];
    }
  }

  /** Deciding a message checks the first condition, and the second only if the first is exceeded. */
  lemma GuardEffects(env: Env, key: RateKey, fast: RateCondition, slow: RateCondition, ctx: Context, g: Gauge)
    requires ConfigWellFormed(env, [GuardChain(key, fast, slow)])
    ensures DecideEffects(env, [GuardChain(key, fast, slow)], 0, ctx, g) ==
            if CheckRate(env, key, fast.window, fast.threshold, ctx, g.world).holds
            then [Rated(key, fast, ctx)] + [Rated(key, slow, ctx)] else [Rated(key, fast, ctx)]
  {
    var chain := GuardChain(key, fast, slow);
    OnlyChain(env, chain, ctx, g);
    var a, b := RateOf(key, fast), RateOf(key, slow);
    assert chain.rules[0].conditions == [a, b];
    TwoConditions(env, a, b, ctx, g.world);
    var both := Meaning(env, Condition.And([a, b]), ctx, g.world);
    assert RuleEffects(env, chain, 1, ctx, both.world) == [];
    assert [Rated(key, fast, ctx)] + [] == [Rated(key, fast, ctx)];
  }

  /** The effects of one more message keep what held of the trace before. */
  ghost predicate Keeps(env: Env, chains: seq<Chain<Condition>>, inv: seq<Effect> -> bool, before: seq<Effect>, ctx: Context,
                        g: Gauge)
    requires ConfigWellFormed(env, chains)
  {
    inv(before) && g.world == Play(env, Fresh.world, before) ==> inv(before + DecideEffects(env, chains, 0, ctx, g))
  }

  lemma {:induction false} TraceKeeps(env: Env, chains: seq<Chain<Condition>>, policy: Policy, messages: seq<Context>,
                                      inv: seq<Effect> -> bool)
    requires ConfigWellFormed(env, chains) && inv([])
    requires forall before, ctx, g :: Keeps(env, chains, inv, before, ctx, g)
    ensures inv(MessageEffects(env, chains, policy, messages))
  {
    if messages != [] {
      var n := |messages| - 1;
      TraceKeeps(env, chains, policy, messages[..n], inv);
      MessagesPlay(env, chains, policy, messages[..n]);
      assert Keeps(env, chains, inv, MessageEffects(env, chains, policy, messages[..n]), messages[n],
                   AfterMessages(env, chains, policy, messages[..n]));
    }
  }

  lemma GuardIsGuarded(env: Env, key: RateKey, fast: RateCondition, slow: RateCondition, policy: Policy,
                       messages: seq<Context>)
    requires ConfigWellFormed(env, [GuardChain(key, fast, slow)])
    ensures GuardedTrace(env, key, fast, slow, MessageEffects(env, [GuardChain(key, fast, slow)], policy, messages))
  {
    var chains := [GuardChain(key, fast, slow)];
    var inv := (effects: seq<Effect>) => GuardedTrace(env, key, fast, slow, effects);
    forall before, ctx, g ensures Keeps(env, chains, inv, before, ctx, g) {
      if inv(before) && g.world == Play(env, Fresh.world, before) {
        GuardEffects(env, key, fast, slow, ctx, g);
        GuardedMessage(env, key, fast, slow, before, ctx, g.world);
        assert before + ([Rated(key, fast, ctx)] + [Rated(key, slow, ctx)]) ==
               before + [Rated(key, fast, ctx)] + [Rated(key, slow, ctx)];
      }
    }
    TraceKeeps(env, chains, policy, messages, inv);
  }

  lemma GuardedMessage(env: Env, key: RateKey, fast: RateCondition, slow: RateCondition, before: seq<Effect>, ctx: Context,
                       w: World)
    requires GuardedTrace(env, key, fast, slow, before) && w == Play(env, Fresh.world, before)
    ensures var f, s := Rated(key, fast, ctx), Rated(key, slow, ctx);
            && GuardedTrace(env, key, fast, slow, before + [f])
            && (CheckRate(env, key, fast.window, fast.threshold, ctx, w).holds ==>
                  GuardedTrace(env, key, fast, slow, before + [f] + [s]))
  {
    var f, s := Rated(key, fast, ctx), Rated(key, slow, ctx);
    GuardedGrows(env, key, fast, slow, before, f);
    if CheckRate(env, key, fast.window, fast.threshold, ctx, w).holds {
      AnswerIsWithin(env, before, f, KeyFor(env, key, ctx));
      NextCheckOn(env, before, f, KeyFor(env, key, ctx));
      assert (before + [f] + [s])[..|before| + 1] == before + [f];
      GuardedGrows(env, key, fast, slow, before + [f], s);
    }
  }

  /** The last check of an entry, if it is by the second condition, follows one that exceeded the first. */
  lemma GuardedLast(env: Env, key: RateKey, fast: RateCondition, slow: RateCondition, effects: seq<Effect>, k: string)
    requires effects != [] && GuardedAt(env, key, fast, slow, effects, |effects| - 1)
    requires Touches(env, effects[|effects| - 1], k)
    ensures var checks, e := ChecksOn(env, effects[..|effects| - 1], k), effects[|effects| - 1];
            e.condition == fast || (e.condition == slow && checks != [] && EntryAfter(checks).value.count > fast.threshold)
  {
    assert k == KeyFor(env, key, effects[|effects| - 1].ctx);
  }

  /** Behind its guard, the second condition admits a check only if its own window is over. */
  lemma {:induction false} GuardedAdmits(env: Env, key: RateKey, fast: RateCondition, slow: RateCondition,
                                         effects: seq<Effect>, k: string, from: nat)
    requires GuardedTrace(env, key, fast, slow, effects) && fast != slow && fast.threshold + 2 > slow.threshold
    requires forall i | 0 <= i < |effects| :: env.clock(i).mono < from + slow.window
    ensures AdmitsOnce(ChecksOn(env, effects, k), slow, from)
  {
    if effects != [] {
      var n := |effects| - 1;
      var before, e := effects[..n], effects[n];
      GuardedPrefix(env, key, fast, slow, effects, n);
      GuardedAdmits(env, key, fast, slow, before, k, from);
      assert GuardedAt(env, key, fast, slow, effects, n);
      if Touches(env, e, k) {
        GuardedLast(env, key, fast, slow, effects, k);
        GuardedCheck(ChecksOn(env, before, k), RateCheck(env.clock(n).mono, e.condition), fast, slow, from);
      } else {
        assert ChecksOn(env, effects, k) == ChecksOn(env, before, k);
      }
    }
  }

  /** At most one check is admitted from then on, and then the window began from then on. */
  predicate AdmitsOnce(checks: seq<RateCheck>, who: RateCondition, from: nat) {
    && Admitted(checks, who, from) <= Min(1, who.threshold)
    && (Admitted(checks, who, from) > 0 ==> checks != [] && from <= EntryAfter(checks).value.windowStart)
  }

  lemma GuardedCheck(checks: seq<RateCheck>, c: RateCheck, fast: RateCondition, slow: RateCondition, from: nat)
    requires fast != slow && fast.threshold + 2 > slow.threshold && c.time < from + slow.window
    requires AdmitsOnce(checks, slow, from)
    requires c.condition == fast ||
             (c.condition == slow && checks != [] && EntryAfter(checks).value.count > fast.threshold)
    ensures AdmitsOnce(checks + [c], slow, from)
  {
    assert (checks + [c])[..|checks|] == checks;
  }

  /**
   In one rule, a second condition whose threshold the first has passed before it
   is checked is bounded whatever the windows, protected or not.
   */
  lemma GuardedIsBounded(key: RateKey, fast: RateCondition, slow: RateCondition, policy: Policy)
    requires fast != slow && fast.threshold + 2 > slow.threshold
    ensures ConfigBounded([GuardChain(key, fast, slow)], policy, key, slow)
  {
    var chains := [GuardChain(key, fast, slow)];
    forall env, messages, n: nat, value, from: nat
      | ConfigWellFormed(env, chains) && MonotoneClock(env)
        && n <= |MessageEffects(env, chains, policy, messages)| && EffectsEndBy(env, n, from, slow.window)
      ensures Admitted(ChecksMade(env, chains, policy, messages, n, TableKey(key, value)), slow, from) <=
              Less(2 * slow.threshold)
    {
      var effects := MessageEffects(env, chains, policy, messages);
      GuardIsGuarded(env, key, fast, slow, policy, messages);
      GuardedPrefix(env, key, fast, slow, effects, n);
      GuardedAdmits(env, key, fast, slow, effects[..n], TableKey(key, value), from);
    }
  }

  lemma GuardedPrefix(env: Env, key: RateKey, fast: RateCondition, slow: RateCondition, effects: seq<Effect>, n: nat)
    requires GuardedTrace(env, key, fast, slow, effects) && n <= |effects|
    ensures GuardedTrace(env, key, fast, slow, effects[..n])
  {
    forall i | 0 <= i < n ensures GuardedAt(env, key, fast, slow, effects[..n], i) {
      assert GuardedAt(env, key, fast, slow, effects, i);
      assert effects[..n][..i] == effects[..i];
    }
  }
}
