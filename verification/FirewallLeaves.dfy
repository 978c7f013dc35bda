/**
 What the leaves of a condition tree mean, said without the functions that
 compute them: text by concatenation, masks by their bits, times by the clock,
 counters by the fields they are kept for.
 */
module FirewallLeaves {
  import opened Wrappers
  import opened Firewall
  import Decimal

  // -------------------------------------------------------------------------
  // Text
  // -------------------------------------------------------------------------

  /** A text contains another exactly if it is that text with something before and something after it. */
  lemma ContainsIff(s: string, part: string)
    ensures ContainsText(s, part) <==> exists before, after :: s == before + part + after
  {
    if ContainsText(s, part) {
      var i :| 0 <= i <= |s| && StandsAt(s, part, i);
      assert s == s[..i] + part + s[i + |part|..];
    }
    forall before, after | s == before + part + after ensures ContainsText(s, part) {
      assert StandsAt(s, part, |before|);
    }
  }

  lemma EndsIff(s: string, end: string)
    ensures EndsWith(s, end) <==> exists before :: s == before + end
  {
    if EndsWith(s, end) {
      assert s == s[..|s| - |end|] + end;
    }
  }

  /** A list condition holds exactly for the loaded entries of its list; an unknown list has none. */
  lemma ListedIff(env: Env, name: string, negate: bool, ctx: Context, w: World)
    ensures var c := Condition.Source(StringConfig(StringMatchType.List, None, None, Some(name), negate));
            && WellFormed(env, c)
            && Meaning(env, c, ctx, w).world == w
            && (Meaning(env, c, ctx, w).holds <==>
                  (name in env.lists && exists i | 0 <= i < |env.lists[name]| :: env.lists[name][i] == ctx.source) != negate)
  {}

  // -------------------------------------------------------------------------
  // Numbers and bits
  // -------------------------------------------------------------------------

  lemma MaskedIff(env: Env, c: Check, ctx: Context, w: World)
    requires c.EsmClass? && c.mask.Some?
    ensures EvalCheck(env, c, ctx, w).holds <==> (ctx.esmClass ^ c.value) & c.mask.value == 0
  {}

  lemma PlainIff(env: Env, c: Check, ctx: Context, w: World)
    requires c.EsmClass? && c.mask.None?
    ensures EvalCheck(env, c, ctx, w).holds <==> ctx.esmClass ^ c.value == 0
  {}

  /** An ESM class condition holds if no bit of its mask differs, or no bit at all without a mask. */
  lemma EsmClassIff(env: Env, c: Check, ctx: Context, w: World)
    requires c.EsmClass?
    ensures var a := Meaning(env, Condition.Simple(c), ctx, w);
            && a.world == w
            && (c.mask.Some? ==> (a.holds <==> (ctx.esmClass ^ c.value) & c.mask.value == 0))
            && (c.mask.None? ==> (a.holds <==> ctx.esmClass ^ c.value == 0))
  {
    if c.mask.Some? {
      MaskedIff(env, c, ctx, w);
    } else {
      PlainIff(env, c, ctx, w);
    }
  }

  /** A content length condition holds within its bounds, an absent one being no bound, or outside if negated. */
  lemma LengthIff(env: Env, min: Option<nat>, max: Option<nat>, negate: bool, ctx: Context, w: World)
    ensures var a := Meaning(env, Condition.Simple(ContentLength(min, max, negate)), ctx, w);
            var tooShort := min.Some? && ctx.contentLength < min.value;
            var tooLong := max.Some? && max.value < ctx.contentLength;
            a.world == w && (a.holds <==> (tooShort || tooLong) == negate)
  {}

  /** These three compare one field of the message. */
  lemma FieldsIff(env: Env, n: bv8, tls: bool, ctx: Context, w: World)
    ensures Meaning(env, Condition.Simple(ProtocolId(n)), ctx, w) == Answer(ctx.protocolId == n, w)
    ensures Meaning(env, Condition.Simple(DataCoding(n)), ctx, w) == Answer(ctx.dataCoding == n, w)
    ensures Meaning(env, Condition.Simple(TlsEnabled(tls)), ctx, w) == Answer(ctx.tlsEnabled == tls, w)
  {}

  // -------------------------------------------------------------------------
  // The clock
  // -------------------------------------------------------------------------

  /** The parts of a text with one separator, or none. */
  lemma {:induction false} SplitsInTwo(s: string, sep: char)
    ensures var parts := Split(s, sep);
            && (|parts| == 1 ==> parts[0] == s && sep !in s)
            && (|parts| == 2 ==> s == parts[0] + [sep] + parts[1] && sep !in parts[0] && sep !in parts[1])
  {
    if s != [] {
      var rest := Split(s[1..], sep);
      SplitsInTwo(s[1..], sep);
      assert s == [s[0]] + s[1..];
    }
  }

  /** These two texts are the hour and the minute of the time. */
  predicate Reads(h: string, m: string, hour: nat, minute: nat) {
    && ':' !in h && Decimal.ParseUnsigned(h, Decimal.U32_BOUND) == Some(hour)
    && ':' !in m && Decimal.ParseUnsigned(m, Decimal.U32_BOUND) == Some(minute)
  }

  lemma PartsAreTime(h: string, m: string, hour: nat, minute: nat)
    requires Reads(h, m, hour, minute)
    ensures ParseTime(h + ":" + m) == Ok((hour, minute))
  {
    SplitPair(h, m, ':');
  }

  lemma TimeHasParts(s: string, hour: nat, minute: nat) returns (h: string, m: string)
    requires ParseTime(s) == Ok((hour, minute))
    ensures s == h + ":" + m && Reads(h, m, hour, minute)
  {
    SplitsInTwo(s, ':');
    h, m := Split(s, ':')[0], Split(s, ':')[1];
  }

  /** A time is exactly an hour and a minute, each a number, with one colon between them. */
  lemma ParsesAsTimeIff(s: string, hour: nat, minute: nat)
    ensures ParseTime(s) == Ok((hour, minute)) <==> exists h, m :: s == h + ":" + m && Reads(h, m, hour, minute)
  {
    if ParseTime(s) == Ok((hour, minute)) {
      var h, m := TimeHasParts(s, hour, minute);
    } else {
      forall h, m | s == h + ":" + m ensures !Reads(h, m, hour, minute) {
        if Reads(h, m, hour, minute) {
          PartsAreTime(h, m, hour, minute);
        }
      }
    }
  }

  /** A time condition holds from its start, around the day, to its end, and looks at the clock once. */
  lemma TimeConditionIff(env: Env, start: string, end: string, s: (nat, nat), e: (nat, nat), zone: Option<string>,
                         ctx: Context, w: World)
    requires ParseTime(start) == Ok(s) && ParseTime(end) == Ok(e)
    requires s.0 < 24 && s.1 < 60 && e.0 < 24 && e.1 < 60 && env.clock(w.ticks).minuteOfDay < 1440
    ensures var c, from, to := Condition.Time(start, end, zone), s.0 * 60 + s.1, e.0 * 60 + e.1;
            var now := env.clock(w.ticks).minuteOfDay;
            && WellFormed(env, c)
            && Meaning(env, c, ctx, w) == Answer((now - from) % 1440 <= (to - from) % 1440, World(w.rates, w.ticks + 1))
  {
    TimeWindowIsCyclic(s.0, s.1, e.0, e.1, env.clock(w.ticks).minuteOfDay);
  }

  lemma DayOfWeekIff(env: Env, days: seq<nat>, ctx: Context, w: World)
    ensures Meaning(env, Condition.Simple(DayOfWeek(days)), ctx, w) ==
            Answer(exists i | 0 <= i < |days| :: days[i] == env.clock(w.ticks).weekday, World(w.rates, w.ticks + 1))
  {}

  // -------------------------------------------------------------------------
  // Counters
  // -------------------------------------------------------------------------

  /** The sender a message is counted under: its sender id, or its source address. */
  function Sender(ctx: Context): string {
    match ctx.senderId
    case Some(id) => id
    case None => ctx.source
  }

  /** The text of the peer's address, or nothing. */
  function Peer(env: Env, ctx: Context): string {
    match ctx.clientIp
    case Some(ip) => env.ipText(ip)
    case None => ""
  }

  /** Two messages share a counter exactly if they agree in the field that the key names. */
  lemma SharesCounterIff(env: Env, key: RateKey, a: Context, b: Context)
    ensures TableKey(key, KeyValue(env, key, a)) == TableKey(key, KeyValue(env, key, b)) <==>
            match key
            case SystemId => a.systemId == b.systemId
            case Source => a.source == b.source
            case Destination => a.destination == b.destination
            case ClientIp => Peer(env, a) == Peer(env, b)
            case SenderId => Sender(a) == Sender(b)
  {
    if TableKey(key, KeyValue(env, key, a)) == TableKey(key, KeyValue(env, key, b)) {
      TableKeyInjective(key, KeyValue(env, key, a), key, KeyValue(env, key, b));
    }
  }
}
