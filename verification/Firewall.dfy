/**
 The firewall's conditions (src/firewall/engine.rs, src/firewall/types.rs): a
 configured tree is compiled to another tree, whose evaluation stops at the
 first deciding part. Rate conditions count each time they are evaluated and
 clock conditions look at a moving clock, so what is evaluated, and in which
 order, is observable.
 */
module Firewall {
  import opened Wrappers
  import Decimal

  // -------------------------------------------------------------------------
  // Text
  // -------------------------------------------------------------------------

  predicate StandsAt(s: string, part: string, i: nat) {
    i + |part| <= |s| && s[i..i + |part|] == part
  }

  predicate ContainsText(s: string, part: string) {
    exists i | 0 <= i <= |s| :: StandsAt(s, part, i)
  }

  predicate EndsWith(s: string, end: string) {
    |end| <= |s| && s[|s| - |end|..] == end
  }

  function Split(s: string, sep: char): (parts: seq<string>)
    ensures |parts| > 0
  {
    if s == [] then [[]]
    else
      var rest := Split(s[1..], sep);
      if s[0] == sep then [[]] + rest else [[s[0]] + rest[0]] + rest[1..]
  }

  // -------------------------------------------------------------------------
  // Configured conditions
  // -------------------------------------------------------------------------

  datatype StringMatchType = Exact | Prefix | Suffix | Contains | Regex | List

  datatype StringConfig = StringConfig(matchType: StringMatchType, value: Option<string>, pattern: Option<string>,
                                       list: Option<string>, negate: bool)

  datatype ContentMatchType = Contains | Exact | Regex | Keywords

  datatype ContentConfig = ContentConfig(matchType: ContentMatchType, value: Option<string>, pattern: Option<string>,
                                         list: Option<string>, caseInsensitive: bool, negate: bool)

  datatype IpMatchType = Exact | Cidr | List

  datatype IpConfig = IpConfig(matchType: IpMatchType, value: Option<string>, list: Option<string>, negate: bool)

  datatype RateKey = SystemId | Source | Destination | ClientIp | SenderId

  /** Conditions that are copied as they are. */
  datatype Check =
    | ContentLength(min: Option<nat>, max: Option<nat>, negate: bool)
    | EsmClass(value: bv8, mask: Option<bv8>)
    | ProtocolId(protocol: bv8)
    | DataCoding(coding: bv8)
    | TlsEnabled(tls: bool)
    | Rate(key: RateKey, window: nat, threshold: nat)
    | DayOfWeek(days: seq<nat>)

  datatype Condition =
    | Source(source: StringConfig)
    | Destination(destination: StringConfig)
    | SenderId(sender: StringConfig)
    | SystemId(system: StringConfig)
    | Content(content: ContentConfig)
    | ClientIp(ip: IpConfig)
    | Simple(check: Check)
    | Time(start: string, end: string, timezone: Option<string>)
    | Not(condition: Condition)
    | And(conditions: seq<Condition>)
    | Or(conditions: seq<Condition>)
    | Plugin(name: string)

  // -------------------------------------------------------------------------
  // Compiled conditions
  // -------------------------------------------------------------------------

  datatype StringMatcher =
    | Exact(value: string, negate: bool)
    | Prefix(value: string, negate: bool)
    | Suffix(value: string, negate: bool)
    | Contains(value: string, negate: bool)
    | Regex(pattern: string, negate: bool)
    | List(list: string, negate: bool)

  datatype ContentMatcher =
    | Contains(value: string, caseInsensitive: bool, negate: bool)
    | Exact(value: string, caseInsensitive: bool, negate: bool)
    | Regex(pattern: string, negate: bool)
    | Keywords(list: string, caseInsensitive: bool, negate: bool)

  datatype IpMatcher =
    | Exact(ip: nat, negate: bool)
    | Cidr(network: set<nat>, negate: bool)
    | List(list: string, negate: bool)

  datatype Compiled =
    | Source(source: StringMatcher)
    | Destination(destination: StringMatcher)
    | SenderId(sender: StringMatcher)
    | SystemId(system: StringMatcher)
    | Content(content: ContentMatcher)
    | ClientIp(ip: IpMatcher)
    | Simple(check: Check)
    | Time(startHour: nat, startMin: nat, endHour: nat, endMin: nat, timezone: Option<string>)
    | Not(condition: Compiled)
    | And(conditions: seq<Compiled>)
    | Or(conditions: seq<Compiled>)

  datatype Error = InvalidCondition(reason: string) | RegexError(pattern: string)

  datatype Instant = Instant(mono: nat, minuteOfDay: nat, weekday: nat)

  /** Foreign code and inputs: regular expressions, address parsing, lists, and what the clock shows when read. */
  datatype Env = Env(regexValid: string -> bool, regexMatch: (string, string) -> bool, lower: string -> string,
                     parseIp: string -> Option<nat>, parseNet: string -> Option<set<nat>>, ipText: nat -> string,
                     lists: map<string, seq<string>>, clock: nat -> Instant)

  datatype Context = Context(source: string, destination: string, senderId: Option<string>, systemId: string,
                             content: string, contentLength: nat, esmClass: bv8, protocolId: bv8, dataCoding: bv8,
                             clientIp: Option<nat>, tlsEnabled: bool)

  datatype RateState = RateState(count: nat, windowStart: nat)

  /** What evaluation changes: the rate table, and how often the clock has been read. */
  datatype World = World(rates: map<string, RateState>, ticks: nat)

  datatype Answer = Answer(holds: bool, world: World)

  // -------------------------------------------------------------------------
  // Compilation
  // -------------------------------------------------------------------------

  function CompileString(env: Env, m: StringConfig): Result<StringMatcher, Error> {
    match m.matchType
    case Exact =>
      if m.value.None? then Err(InvalidCondition("exact match requires value"))
      else Ok(StringMatcher.Exact(m.value.value, m.negate))
    case Prefix =>
      if m.value.None? then Err(InvalidCondition("prefix match requires value"))
      else Ok(StringMatcher.Prefix(m.value.value, m.negate))
    case Suffix =>
      if m.value.None? then Err(InvalidCondition("suffix match requires value"))
      else Ok(StringMatcher.Suffix(m.value.value, m.negate))
    case Contains =>
      if m.value.None? then Err(InvalidCondition("contains match requires value"))
      else Ok(StringMatcher.Contains(m.value.value, m.negate))
    case Regex =>
      if m.pattern.None? then Err(InvalidCondition("regex match requires pattern"))
      else if !env.regexValid(m.pattern.value) then Err(RegexError(m.pattern.value))
      else Ok(StringMatcher.Regex(m.pattern.value, m.negate))
    case List =>
      if m.list.None? then Err(InvalidCondition("list match requires list name"))
      else Ok(StringMatcher.List(m.list.value, m.negate))
  }

  function CompileContent(env: Env, m: ContentConfig): Result<ContentMatcher, Error> {
    match m.matchType
    case Contains =>
      if m.value.None? then Err(InvalidCondition("contains match requires value"))
      else Ok(ContentMatcher.Contains(m.value.value, m.caseInsensitive, m.negate))
    case Exact =>
      if m.value.None? then Err(InvalidCondition("exact match requires value"))
      else Ok(ContentMatcher.Exact(m.value.value, m.caseInsensitive, m.negate))
    case Regex =>
      if m.pattern.None? then Err(InvalidCondition("regex match requires pattern"))
      else
        var pattern := if m.caseInsensitive then "(?i)" + m.pattern.value else m.pattern.value;
        if !env.regexValid(pattern) then Err(RegexError(pattern))
        else Ok(ContentMatcher.Regex(pattern, m.negate))
    case Keywords =>
      if m.list.None? then Err(InvalidCondition("keywords match requires list name"))
      else Ok(ContentMatcher.Keywords(m.list.value, m.caseInsensitive, m.negate))
  }

  function CompileIp(env: Env, m: IpConfig): Result<IpMatcher, Error> {
    match m.matchType
    case Exact =>
      if m.value.None? then Err(InvalidCondition("exact IP match requires value"))
      else if env.parseIp(m.value.value).None? then Err(InvalidCondition("invalid IP address: " + m.value.value))
      else Ok(IpMatcher.Exact(env.parseIp(m.value.value).value, m.negate))
    case Cidr =>
      if m.value.None? then Err(InvalidCondition("CIDR match requires value"))
      else if env.parseNet(m.value.value).None? then Err(InvalidCondition("invalid CIDR: " + m.value.value))
      else Ok(IpMatcher.Cidr(env.parseNet(m.value.value).value, m.negate))
    case List =>
      if m.list.None? then Err(InvalidCondition("list IP match requires list name"))
      else Ok(IpMatcher.List(m.list.value, m.negate))
  }

  function ParseTime(s: string): Result<(nat, nat), Error> {
    var parts := Split(s, ':');
    if |parts| != 2 then Err(InvalidCondition("invalid time format: " + s))
    else if Decimal.ParseUnsigned(parts[0], Decimal.U32_BOUND).None? then
      Err(InvalidCondition("invalid hour: " + parts[0]))
    else if Decimal.ParseUnsigned(parts[1], Decimal.U32_BOUND).None? then
      Err(InvalidCondition("invalid minute: " + parts[1]))
    else
      Ok((Decimal.ParseUnsigned(parts[0], Decimal.U32_BOUND).value,
          Decimal.ParseUnsigned(parts[1], Decimal.U32_BOUND).value))
  }

  function Compile(env: Env, c: Condition): Result<Compiled, Error>
    decreases c
  {
    match c
    case Source(m) =>
      var r := CompileString(env, m);
      if r.Err? then Err(r.error) else Ok(Compiled.Source(r.value))
    case Destination(m) =>
      var r := CompileString(env, m);
      if r.Err? then Err(r.error) else Ok(Compiled.Destination(r.value))
    case SenderId(m) =>
      var r := CompileString(env, m);
      if r.Err? then Err(r.error) else Ok(Compiled.SenderId(r.value))
    case SystemId(m) =>
      var r := CompileString(env, m);
      if r.Err? then Err(r.error) else Ok(Compiled.SystemId(r.value))
    case Content(m) =>
      var r := CompileContent(env, m);
      if r.Err? then Err(r.error) else Ok(Compiled.Content(r.value))
    case ClientIp(m) =>
      var r := CompileIp(env, m);
      if r.Err? then Err(r.error) else Ok(Compiled.ClientIp(r.value))
    case Simple(check) => Ok(Compiled.Simple(check))
    case Time(start, end, timezone) =>
      var s := ParseTime(start);
      if s.Err? then Err(s.error)
      else
        var e := ParseTime(end);
        if e.Err? then Err(e.error)
        else Ok(Compiled.Time(s.value.0, s.value.1, e.value.0, e.value.1, timezone))
    case Not(inner) =>
      var r := Compile(env, inner);
      if r.Err? then Err(r.error) else Ok(Compiled.Not(r.value))
    case And(cs) =>
      var r := CompileAll(env, cs);
      if r.Err? then Err(r.error) else Ok(Compiled.And(r.value))
    case Or(cs) =>
      var r := CompileAll(env, cs);
      if r.Err? then Err(r.error) else Ok(Compiled.Or(r.value))
    case Plugin(_) => Err(InvalidCondition("plugin conditions not yet supported"))
  }

  /** Left to right, up to the first error. */
  function CompileAll(env: Env, cs: seq<Condition>): Result<seq<Compiled>, Error>
    decreases cs
  {
    if cs == [] then Ok([])
    else
      var r := Compile(env, cs[0]);
      if r.Err? then Err(r.error)
      else
        var rest := CompileAll(env, cs[1..]);
        if rest.Err? then rest else Ok([r.value] + rest.value)
  }

  // -------------------------------------------------------------------------
  // Evaluation of compiled conditions
  // -------------------------------------------------------------------------

  function Entries(env: Env, list: string): seq<string> {
    if list in env.lists then env.lists[list] else []
  }

  predicate MatchString(env: Env, m: StringMatcher, s: string) {
    match m
    case Exact(value, negate) => if negate then !(s == value) else s == value
    case Prefix(value, negate) => if negate then !(value <= s) else value <= s
    case Suffix(value, negate) => if negate then !EndsWith(s, value) else EndsWith(s, value)
    case Contains(value, negate) => if negate then !ContainsText(s, value) else ContainsText(s, value)
    case Regex(pattern, negate) => if negate then !env.regexMatch(pattern, s) else env.regexMatch(pattern, s)
    case List(list, negate) => if negate then s !in Entries(env, list) else s in Entries(env, list)
  }

  predicate MatchContent(env: Env, m: ContentMatcher, s: string) {
    match m
    case Contains(value, ci, negate) =>
      var matches := if ci then ContainsText(env.lower(s), env.lower(value)) else ContainsText(s, value);
      if negate then !matches else matches
    case Exact(value, ci, negate) =>
      var matches := if ci then env.lower(s) == env.lower(value) else s == value;
      if negate then !matches else matches
    case Regex(pattern, negate) => if negate then !env.regexMatch(pattern, s) else env.regexMatch(pattern, s)
    case Keywords(list, ci, negate) =>
      var matches := exists kw | kw in Entries(env, list) ::
        ContainsText(if ci then env.lower(s) else s, if ci then env.lower(kw) else kw);
      if negate then !matches else matches
  }

  predicate MatchIp(env: Env, m: IpMatcher, ip: nat) {
    match m
    case Exact(expected, negate) => if negate then !(ip == expected) else ip == expected
    case Cidr(network, negate) => if negate then !(ip in network) else ip in network
    case List(list, negate) =>
      if negate then env.ipText(ip) !in Entries(env, list) else env.ipText(ip) in Entries(env, list)
  }

  function KeyName(key: RateKey): string {
    match key
    case SystemId => "SystemId"
    case Source => "Source"
    case Destination => "Destination"
    case ClientIp => "ClientIp"
    case SenderId => "SenderId"
  }

  function KeyValue(env: Env, key: RateKey, ctx: Context): string {
    match key
    case SystemId => ctx.systemId
    case Source => ctx.source
    case Destination => ctx.destination
    case ClientIp => if ctx.clientIp.Some? then env.ipText(ctx.clientIp.value) else ""
    case SenderId => if ctx.senderId.Some? then ctx.senderId.value else ctx.source
  }

  function TableKey(key: RateKey, value: string): string {
    KeyName(key) + ":" + value
  }

  /** One count against a window that starts anew once it is over. */
  function Count(entry: Option<RateState>, window: nat, now: nat): RateState {
    var e := if entry.Some? then entry.value else RateState(0, now);
    if now >= e.windowStart + window then RateState(1, now) else e.(count := e.count + 1)
  }

  function CheckRate(env: Env, key: RateKey, window: nat, threshold: nat, ctx: Context, w: World): Answer {
    var k := TableKey(key, KeyValue(env, key, ctx));
    var now := env.clock(w.ticks).mono;
    var e := Count(if k in w.rates then Some(w.rates[k]) else None, window, now);
    Answer(e.count > threshold, World(w.rates[k := e], w.ticks + 1))
  }

  predicate CheckTime(startHour: nat, startMin: nat, endHour: nat, endMin: nat, now: nat) {
    var start, end := startHour * 60 + startMin, endHour * 60 + endMin;
    if start <= end then start <= now <= end else now >= start || now <= end
  }

  function EvalCheck(env: Env, check: Check, ctx: Context, w: World): Answer {
    match check
    case ContentLength(min, max, negate) =>
      var inRange := (min.Some? ==> ctx.contentLength >= min.value) && (max.Some? ==> ctx.contentLength <= max.value);
      Answer(if negate then !inRange else inRange, w)
    case EsmClass(value, mask) =>
      Answer(if mask.Some? then ctx.esmClass & mask.value == value & mask.value else ctx.esmClass == value, w)
    case ProtocolId(value) => Answer(ctx.protocolId == value, w)
    case DataCoding(value) => Answer(ctx.dataCoding == value, w)
    case TlsEnabled(value) => Answer(ctx.tlsEnabled == value, w)
    case Rate(key, window, threshold) => CheckRate(env, key, window, threshold, ctx, w)
    case DayOfWeek(days) => Answer(env.clock(w.ticks).weekday in days, w.(ticks := w.ticks + 1))
  }

  function Eval(env: Env, c: Compiled, ctx: Context, w: World): Answer
    decreases c
  {
    match c
    case Source(m) => Answer(MatchString(env, m, ctx.source), w)
    case Destination(m) => Answer(MatchString(env, m, ctx.destination), w)
    case SenderId(m) => Answer(ctx.senderId.Some? && MatchString(env, m, ctx.senderId.value), w)
    case SystemId(m) => Answer(MatchString(env, m, ctx.systemId), w)
    case Content(m) => Answer(MatchContent(env, m, ctx.content), w)
    case ClientIp(m) => Answer(ctx.clientIp.Some? && MatchIp(env, m, ctx.clientIp.value), w)
    case Simple(check) => EvalCheck(env, check, ctx, w)
    case Time(sh, sm, eh, em, _) =>
      Answer(CheckTime(sh, sm, eh, em, env.clock(w.ticks).minuteOfDay), w.(ticks := w.ticks + 1))
    case Not(inner) =>
      var a := Eval(env, inner, ctx, w);
      a.(holds := !a.holds)
    case And(cs) => EvalAnd(env, cs, ctx, w)
    case Or(cs) => EvalOr(env, cs, ctx, w)
  }

  function EvalAnd(env: Env, cs: seq<Compiled>, ctx: Context, w: World): Answer
    decreases cs
  {
    if cs == [] then Answer(true, w)
    else
      var a := Eval(env, cs[0], ctx, w);
      if !a.holds then a else EvalAnd(env, cs[1..], ctx, a.world)
  }

  function EvalOr(env: Env, cs: seq<Compiled>, ctx: Context, w: World): Answer
    decreases cs
  {
    if cs == [] then Answer(false, w)
    else
      var a := Eval(env, cs[0], ctx, w);
      if a.holds then a else EvalOr(env, cs[1..], ctx, a.world)
  }

  // -------------------------------------------------------------------------
  // What a configured condition means
  // -------------------------------------------------------------------------

  predicate StringHolds(env: Env, m: StringConfig, s: string) {
    match m.matchType
    case Exact => m.value == Some(s)
    case Prefix => m.value.Some? && m.value.value <= s
    case Suffix => m.value.Some? && EndsWith(s, m.value.value)
    case Contains => m.value.Some? && ContainsText(s, m.value.value)
    case Regex => m.pattern.Some? && env.regexMatch(m.pattern.value, s)
    case List => m.list.Some? && s in Entries(env, m.list.value)
  }

  function Fold(env: Env, m: ContentConfig, s: string): string {
    if m.caseInsensitive then env.lower(s) else s
  }

  predicate ContentHolds(env: Env, m: ContentConfig, s: string) {
    match m.matchType
    case Contains => m.value.Some? && ContainsText(Fold(env, m, s), Fold(env, m, m.value.value))
    case Exact => m.value.Some? && Fold(env, m, s) == Fold(env, m, m.value.value)
    case Regex =>
      m.pattern.Some? && env.regexMatch((if m.caseInsensitive then "(?i)" else "") + m.pattern.value, s)
    case Keywords =>
      m.list.Some? && exists kw | kw in Entries(env, m.list.value) :: ContainsText(Fold(env, m, s), Fold(env, m, kw))
  }

  predicate IpHolds(env: Env, m: IpConfig, ip: nat) {
    match m.matchType
    case Exact => m.value.Some? && env.parseIp(m.value.value) == Some(ip)
    case Cidr => m.value.Some? && env.parseNet(m.value.value).Some? && ip in env.parseNet(m.value.value).value
    case List => m.list.Some? && env.ipText(ip) in Entries(env, m.list.value)
  }

  /** Everything a condition needs is there and can be parsed. */
  predicate WellFormed(env: Env, c: Condition)
    decreases c
  {
    match c
    case Source(m) => StringWellFormed(env, m)
    case Destination(m) => StringWellFormed(env, m)
    case SenderId(m) => StringWellFormed(env, m)
    case SystemId(m) => StringWellFormed(env, m)
    case Content(m) =>
      (match m.matchType
       case Regex => m.pattern.Some? && env.regexValid((if m.caseInsensitive then "(?i)" else "") + m.pattern.value)
       case Keywords => m.list.Some?
       case _ => m.value.Some?)
    case ClientIp(m) =>
      (match m.matchType
       case Exact => m.value.Some? && env.parseIp(m.value.value).Some?
       case Cidr => m.value.Some? && env.parseNet(m.value.value).Some?
       case List => m.list.Some?)
    case Simple(_) => true
    case Time(start, end, _) => ParseTime(start).Ok? && ParseTime(end).Ok?
    case Not(inner) => WellFormed(env, inner)
    case And(cs) => forall i | 0 <= i < |cs| :: WellFormed(env, cs[i])
    case Or(cs) => forall i | 0 <= i < |cs| :: WellFormed(env, cs[i])
    case Plugin(_) => false
  }

  predicate StringWellFormed(env: Env, m: StringConfig) {
    match m.matchType
    case Regex => m.pattern.Some? && env.regexValid(m.pattern.value)
    case List => m.list.Some?
    case _ => m.value.Some?
  }

  /** The meaning of a well-formed condition: its answer and its effect. */
  function Meaning(env: Env, c: Condition, ctx: Context, w: World): Answer
    requires WellFormed(env, c)
    decreases c
  {
    match c
    case Source(m) => Answer(m.negate != StringHolds(env, m, ctx.source), w)
    case Destination(m) => Answer(m.negate != StringHolds(env, m, ctx.destination), w)
    case SenderId(m) => Answer(ctx.senderId.Some? && m.negate != StringHolds(env, m, ctx.senderId.value), w)
    case SystemId(m) => Answer(m.negate != StringHolds(env, m, ctx.systemId), w)
    case Content(m) => Answer(m.negate != ContentHolds(env, m, ctx.content), w)
    case ClientIp(m) => Answer(ctx.clientIp.Some? && m.negate != IpHolds(env, m, ctx.clientIp.value), w)
    case Simple(check) => EvalCheck(env, check, ctx, w)
    case Time(start, end, _) =>
      var s, e := ParseTime(start).value, ParseTime(end).value;
      Answer(CheckTime(s.0, s.1, e.0, e.1, env.clock(w.ticks).minuteOfDay), w.(ticks := w.ticks + 1))
    case Not(inner) =>
      var a := Meaning(env, inner, ctx, w);
      Answer(!a.holds, a.world)
    case And(cs) => Until(env, cs, false, ctx, w)
    case Or(cs) => Until(env, cs, true, ctx, w)
    case Plugin(_) => assert false; Answer(false, w)
  }

  /** Runs conditions left to right up to the first that answers `stop`. */
  function Until(env: Env, cs: seq<Condition>, stop: bool, ctx: Context, w: World): Answer
    requires forall i | 0 <= i < |cs| :: WellFormed(env, cs[i])
    decreases cs
  {
    if cs == [] then Answer(!stop, w)
    else
      var a := Meaning(env, cs[0], ctx, w);
      if a.holds == stop then a else Until(env, cs[1..], stop, ctx, a.world)
  }

  // -------------------------------------------------------------------------
  // Compilation is exact
  // -------------------------------------------------------------------------

  /** A condition compiles exactly when it is well-formed. */
  lemma {:induction false} CompilesIffWellFormed(env: Env, c: Condition)
    ensures Compile(env, c).Ok? <==> WellFormed(env, c)
    decreases c
  {
    match c
    case Not(inner) => CompilesIffWellFormed(env, inner);
    case And(cs) => AllCompileIffWellFormed(env, cs);
    case Or(cs) => AllCompileIffWellFormed(env, cs);
    case Content(m) =>
      if m.matchType.Regex? && m.pattern.Some? {
        assert "" + m.pattern.value == m.pattern.value;
      }
    case _ =>
  }

  lemma {:induction false} AllCompileIffWellFormed(env: Env, cs: seq<Condition>)
    ensures CompileAll(env, cs).Ok? <==> forall i | 0 <= i < |cs| :: WellFormed(env, cs[i])
    decreases cs
  {
    if cs != [] {
      CompilesIffWellFormed(env, cs[0]);
      AllCompileIffWellFormed(env, cs[1..]);
      assert forall i | 0 < i < |cs| :: cs[i] == cs[1..][i - 1];
    }
  }

  lemma StringFaithful(env: Env, m: StringConfig, s: string)
    requires CompileString(env, m).Ok?
    ensures MatchString(env, CompileString(env, m).value, s) == (m.negate != StringHolds(env, m, s))
  {}

  lemma ContentFaithful(env: Env, m: ContentConfig, s: string)
    requires CompileContent(env, m).Ok?
    ensures MatchContent(env, CompileContent(env, m).value, s) == (m.negate != ContentHolds(env, m, s))
  {
    if m.matchType.Regex? {
      assert "" + m.pattern.value == m.pattern.value;
    }
  }

  lemma TextIsFaithful(env: Env, c: Condition, ctx: Context, w: World)
    requires c.Source? || c.Destination? || c.SenderId? || c.SystemId?
    requires Compile(env, c).Ok? && WellFormed(env, c)
    ensures Eval(env, Compile(env, c).value, ctx, w) == Meaning(env, c, ctx, w)
  {
    match c
    case Source(m) => StringFaithful(env, m, ctx.source);
    case Destination(m) => StringFaithful(env, m, ctx.destination);
    case SenderId(m) =>
      if ctx.senderId.Some? {
        StringFaithful(env, m, ctx.senderId.value);
      }
    case SystemId(m) => StringFaithful(env, m, ctx.systemId);
  }

  lemma IpIsFaithful(env: Env, m: IpConfig, ip: nat)
    requires CompileIp(env, m).Ok?
    ensures MatchIp(env, CompileIp(env, m).value, ip) == (m.negate != IpHolds(env, m, ip))
  {}

  lemma ContentLeafIsFaithful(env: Env, m: ContentConfig, ctx: Context, w: World)
    requires Compile(env, Condition.Content(m)).Ok? && WellFormed(env, Condition.Content(m))
    ensures Eval(env, Compile(env, Condition.Content(m)).value, ctx, w) == Meaning(env, Condition.Content(m), ctx, w)
  {
    ContentFaithful(env, m, ctx.content);
  }

  lemma IpLeafIsFaithful(env: Env, m: IpConfig, ctx: Context, w: World)
    requires Compile(env, Condition.ClientIp(m)).Ok? && WellFormed(env, Condition.ClientIp(m))
    ensures Eval(env, Compile(env, Condition.ClientIp(m)).value, ctx, w) == Meaning(env, Condition.ClientIp(m), ctx, w)
  {
    if ctx.clientIp.Some? {
      IpIsFaithful(env, m, ctx.clientIp.value);
    }
  }

  lemma OtherLeafIsFaithful(env: Env, c: Condition, ctx: Context, w: World)
    requires c.Simple? || c.Time?
    requires Compile(env, c).Ok? && WellFormed(env, c)
    ensures Eval(env, Compile(env, c).value, ctx, w) == Meaning(env, c, ctx, w)
  {}

  /** Evaluating a compiled condition gives the configured meaning: the same answer and the same effects. */
  lemma {:induction false} CompileIsFaithful(env: Env, c: Condition, ctx: Context, w: World)
    requires Compile(env, c).Ok?
    ensures WellFormed(env, c)
    ensures Eval(env, Compile(env, c).value, ctx, w) == Meaning(env, c, ctx, w)
    decreases c
  {
    CompilesIffWellFormed(env, c);
    if c.Not? {
      CompileIsFaithful(env, c.condition, ctx, w);
    } else if c.And? || c.Or? {
      CompileAllIsFaithful(env, c.conditions, ctx, w);
    } else if c.Source? || c.Destination? || c.SenderId? || c.SystemId? {
      TextIsFaithful(env, c, ctx, w);
    } else if c.Content? {
      ContentLeafIsFaithful(env, c.content, ctx, w);
    } else if c.ClientIp? {
      IpLeafIsFaithful(env, c.ip, ctx, w);
    } else {
      OtherLeafIsFaithful(env, c, ctx, w);
    }
  }

  lemma {:induction false} CompileAllIsFaithful(env: Env, cs: seq<Condition>, ctx: Context, w: World)
    requires CompileAll(env, cs).Ok?
    ensures forall i | 0 <= i < |cs| :: WellFormed(env, cs[i])
    ensures EvalAnd(env, CompileAll(env, cs).value, ctx, w) == Until(env, cs, false, ctx, w)
    ensures EvalOr(env, CompileAll(env, cs).value, ctx, w) == Until(env, cs, true, ctx, w)
    decreases cs
  {
    AllCompileIffWellFormed(env, cs);
    if cs != [] {
      CompileIsFaithful(env, cs[0], ctx, w);
      CompileAllIsFaithful(env, cs[1..], ctx, Meaning(env, cs[0], ctx, w).world);
      var compiled := CompileAll(env, cs).value;
      assert compiled[0] == Compile(env, cs[0]).value;
      assert compiled[1..] == CompileAll(env, cs[1..]).value;
    }
  }

  // -------------------------------------------------------------------------
  // De Morgan, effects included
  // -------------------------------------------------------------------------

  function Negated(cs: seq<Compiled>): seq<Compiled> {
    seq(|cs|, i requires 0 <= i < |cs| => Compiled.Not(cs[i]))
  }

  lemma {:induction false} NegatedLists(env: Env, cs: seq<Compiled>, ctx: Context, w: World)
    ensures var a := EvalAnd(env, cs, ctx, w);
            EvalOr(env, Negated(cs), ctx, w) == Answer(!a.holds, a.world)
    ensures var a := EvalOr(env, cs, ctx, w);
            EvalAnd(env, Negated(cs), ctx, w) == Answer(!a.holds, a.world)
    decreases |cs|
  {
    if cs != [] {
      var a := Eval(env, cs[0], ctx, w);
      NegatedLists(env, cs[1..], ctx, a.world);
      assert Negated(cs)[1..] == Negated(cs[1..]);
      assert Eval(env, Negated(cs)[0], ctx, w) == Answer(!a.holds, a.world);
    }
  }

  /** Negation moves through `And` and `Or` without changing which conditions are evaluated. */
  lemma DeMorgan(env: Env, cs: seq<Compiled>, ctx: Context, w: World)
    ensures Eval(env, Compiled.Not(Compiled.And(cs)), ctx, w) == Eval(env, Compiled.Or(Negated(cs)), ctx, w)
    ensures Eval(env, Compiled.Not(Compiled.Or(cs)), ctx, w) == Eval(env, Compiled.And(Negated(cs)), ctx, w)
  {
    NegatedLists(env, cs, ctx, w);
    assert Eval(env, Compiled.And(cs), ctx, w) == EvalAnd(env, cs, ctx, w);
    assert Eval(env, Compiled.Or(cs), ctx, w) == EvalOr(env, cs, ctx, w);
  }

  // -------------------------------------------------------------------------
  // Leaves
  // -------------------------------------------------------------------------

  /** Two different keys never share a counter. */
  lemma TableKeyInjective(k1: RateKey, v1: string, k2: RateKey, v2: string)
    requires TableKey(k1, v1) == TableKey(k2, v2)
    ensures k1 == k2 && v1 == v2
  {
    var a, b := KeyName(k1), KeyName(k2);
    var t := TableKey(k1, v1);
    assert forall i | 0 <= i < |a| :: t[i] == a[i] != ':';
    assert forall i | 0 <= i < |b| :: t[i] == b[i] != ':';
    assert t[|a|] == ':' && t[|b|] == ':';
    assert |a| == |b|;
    assert a == t[..|a|] == b;
    assert t[|a| + 1..] == v1 && t[|b| + 1..] == v2;
    assert k1 == k2;
  }

  /** For clock times, the window runs from start to end around the day, both ends included. */
  lemma TimeWindowIsCyclic(startHour: nat, startMin: nat, endHour: nat, endMin: nat, now: nat)
    requires startHour < 24 && startMin < 60 && endHour < 24 && endMin < 60 && now < 1440
    ensures var start, end := startHour * 60 + startMin, endHour * 60 + endMin;
            CheckTime(startHour, startMin, endHour, endMin, now) <==> (now - start) % 1440 <= (end - start) % 1440
  {}

  lemma {:induction false} SplitPlain(s: string, sep: char)
    requires sep !in s
    ensures Split(s, sep) == [s]
  {
    if s != [] {
      SplitPlain(s[1..], sep);
      assert [s[0]] + s[1..] == s;
    }
  }

  lemma {:induction false} SplitPair(a: string, b: string, sep: char)
    requires sep !in a && sep !in b
    ensures Split(a + [sep] + b, sep) == [a, b]
  {
    var s := a + [sep] + b;
    if a == [] {
      assert s[1..] == b;
      SplitPlain(b, sep);
    } else {
      SplitPair(a[1..], b, sep);
      assert s[1..] == a[1..] + [sep] + b;
      assert [a[0]] + a[1..] == a;
    }
  }

  /** A time printed as hour and minute is read back. */
  lemma TimeRoundTrip(hour: nat, minute: nat)
    requires hour < Decimal.U32_BOUND && minute < Decimal.U32_BOUND
    ensures ParseTime(Decimal.Print(hour) + ":" + Decimal.Print(minute)) == Ok((hour, minute))
  {
    var h, m := Decimal.Print(hour), Decimal.Print(minute);
    assert forall i | 0 <= i < |h| :: Decimal.IsDigit(h[i]);
    assert forall i | 0 <= i < |m| :: Decimal.IsDigit(m[i]);
    SplitPair(h, m, ':');
    Decimal.ParsePrint(hour, Decimal.U32_BOUND);
    Decimal.ParsePrint(minute, Decimal.U32_BOUND);
  }
}
