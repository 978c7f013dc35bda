/**
 The scheduler (src/store/scheduler.rs): a queue that each call drains and
 refills, an index of ids by ESME, counters, and recurring schedules. The order
 in which a heap drains is not specified, so every call is given an arbitrary
 permutation of the queue.
 */
module Scheduler {
  import opened Wrappers
  import Messages

  datatype Status = Pending | Delivering | Completed | Cancelled | Failed | Paused

  datatype Frequency = Minutely | Hourly | Daily | Weekly | Monthly

  datatype Recurrence = Recurrence(frequency: Frequency, interval: nat, endDate: Option<int>)

  /** Seconds in one period; a month counts as thirty days. */
  function Period(f: Frequency): nat {
    match f
    case Minutely => 60
    case Hourly => 3600
    case Daily => 86400
    case Weekly => 7 * 86400
    case Monthly => 30 * 86400
  }

  function NextFrom(rule: Recurrence, from: int): int {
    var next := from + rule.interval * Period(rule.frequency);
    if rule.endDate.Some? && next > rule.endDate.value then rule.endDate.value else next
  }

  datatype Scheduled = Scheduled(id: string, message: Messages.StoredMessage, scheduledAt: int,
                                 recurrence: Option<Recurrence>, deliveryCount: nat, maxDeliveries: nat,
                                 status: Status, esme: string)
  {
    predicate CanRepeat() {
      recurrence.Some? && (maxDeliveries == 0 || deliveryCount < maxDeliveries)
    }

    /** The schedule after one delivery: waiting for its next turn, or completed. */
    function MarkDelivered(): Scheduled {
      var m := this.(deliveryCount := deliveryCount + 1);
      if m.CanRepeat() then m.(scheduledAt := NextFrom(recurrence.value, scheduledAt), status := Pending)
      else m.(status := Completed)
    }

    /** As made by `ScheduledMessage::new` and its builders. */
    predicate New() {
      status == Pending && deliveryCount == 0
    }

    /** How often the schedule may be handed out; `None` is without limit. */
    function Limit(): Option<nat> {
      if recurrence.None? then Some(1) else if maxDeliveries == 0 then None else Some(maxDeliveries)
    }
  }

  datatype Config = Config(maxPerEsme: nat, maxTotal: nat)

  datatype Error = NotFound | TotalLimitExceeded | EsmeLimitExceeded

  /** What callers have seen, in order. */
  datatype Entry =
    | Accepted(msg: Scheduled)
    | Refused(error: Error)
    | CancelAcknowledged(id: string)
    | Handed(due: seq<Scheduled>)
    | Marked(id: string)

  datatype State = State(queue: seq<Scheduled>, byEsme: map<string, seq<string>>,
                         totalScheduled: nat, totalDelivered: nat, totalCancelled: nat, log: seq<Entry>)

  const Init: State := State([], map[], 0, 0, 0, [])

  function Index(byEsme: map<string, seq<string>>, esme: string): seq<string> {
    if esme in byEsme then byEsme[esme] else []
  }

  // -------------------------------------------------------------------------
  // Operations on a drained queue
  // -------------------------------------------------------------------------

  /** The messages put back by `cancel`. */
  function Without(order: seq<Scheduled>, id: string): seq<Scheduled> {
    if order == [] then []
    else
      var m := order[|order| - 1];
      Without(order[..|order| - 1], id) + if m.id == id then [] else [m]
  }

  /** The messages with this id. */
  function Held(order: seq<Scheduled>, id: string): seq<Scheduled> {
    if order == [] then []
    else
      var m := order[|order| - 1];
      Held(order[..|order| - 1], id) + if m.id == id then [m] else []
  }

  predicate IsDue(m: Scheduled, now: int) {
    m.scheduledAt <= now && m.status == Pending
  }

  datatype Taking = Taking(queue: seq<Scheduled>, due: seq<Scheduled>)

  /** One turn of the refill loop of `get_due`. */
  function TakeOne(p: Taking, m: Scheduled, limit: nat, now: int): Taking {
    if |p.due| < limit && IsDue(m, now) then
      Taking(p.queue + [m.(status := Delivering)], p.due + [m.(status := Delivering)])
    else p.(queue := p.queue + [m])
  }

  /** `get_due`: the refilled queue and the messages handed out. */
  function TakeDue(order: seq<Scheduled>, limit: nat, now: int): Taking {
    if order == [] then Taking([], [])
    else TakeOne(TakeDue(order[..|order| - 1], limit, now), order[|order| - 1], limit, now)
  }

  function Retain(ids: seq<string>, id: string): seq<string> {
    if ids == [] then []
    else
      var last := ids[|ids| - 1];
      Retain(ids[..|ids| - 1], id) + if last == id then [] else [last]
  }

  function DropFromIndex(byEsme: map<string, seq<string>>, esme: string, id: string): map<string, seq<string>> {
    if esme in byEsme then byEsme[esme := Retain(byEsme[esme], id)] else byEsme
  }

  datatype Marking = Marking(queue: seq<Scheduled>, byEsme: map<string, seq<string>>, delivered: nat)

  /** One turn of the refill loop of `mark_delivered`. */
  function MarkOne(p: Marking, m: Scheduled, id: string): Marking {
    if m.id == id && m.status == Delivering then
      if m.MarkDelivered().status == Pending then p.(queue := p.queue + [m.MarkDelivered()])
      else p.(byEsme := DropFromIndex(p.byEsme, m.esme, id), delivered := p.delivered + 1)
    else p.(queue := p.queue + [m])
  }

  function MarkAll(order: seq<Scheduled>, byEsme: map<string, seq<string>>, id: string): Marking {
    if order == [] then Marking([], byEsme, 0)
    else MarkOne(MarkAll(order[..|order| - 1], byEsme, id), order[|order| - 1], id)
  }

  // -------------------------------------------------------------------------
  // Steps
  // -------------------------------------------------------------------------

  datatype Action =
    | Schedule(msg: Scheduled)
    | Cancel(order: seq<Scheduled>, id: string)
    | GetDue(order: seq<Scheduled>, limit: nat, now: int)
    | MarkDelivered(order: seq<Scheduled>, id: string)

  /** The accepted schedule with this id. */
  function Origin(log: seq<Entry>, id: string): Option<Scheduled> {
    if log == [] then None
    else
      var e := log[|log| - 1];
      if e.Accepted? && e.msg.id == id then Some(e.msg) else Origin(log[..|log| - 1], id)
  }

  /** Ids are unique; a drain yields the queue in some order. */
  predicate Enabled(s: State, a: Action) {
    match a
    case Schedule(msg) => msg.New() && Origin(s.log, msg.id).None?
    case Cancel(order, _) => multiset(order) == multiset(s.queue)
    case GetDue(order, _, _) => multiset(order) == multiset(s.queue)
    case MarkDelivered(order, _) => multiset(order) == multiset(s.queue)
  }

  function ScheduleOutcome(c: Config, s: State, msg: Scheduled): Result<string, Error> {
    if |s.queue| >= c.maxTotal then Err(TotalLimitExceeded)
    else if msg.esme in s.byEsme && |s.byEsme[msg.esme]| >= c.maxPerEsme then Err(EsmeLimitExceeded)
    else Ok(msg.id)
  }

  function Apply(c: Config, s: State, a: Action): State {
    match a
    case Schedule(msg) =>
      var r := ScheduleOutcome(c, s, msg);
      if r.Err? then s.(log := s.log + [Refused(r.error)])
      else s.(queue := s.queue + [msg],
              byEsme := s.byEsme[msg.esme := Index(s.byEsme, msg.esme) + [msg.id]],
              totalScheduled := s.totalScheduled + 1,
              log := s.log + [Accepted(msg)])
    case Cancel(order, id) =>
      if Held(order, id) == [] then s.(queue := Without(order, id), log := s.log + [Refused(NotFound)])
      else s.(queue := Without(order, id), totalCancelled := s.totalCancelled + 1,
              log := s.log + [CancelAcknowledged(id)])
    case GetDue(order, limit, now) =>
      var p := TakeDue(order, limit, now);
      s.(queue := p.queue, log := s.log + [Handed(p.due)])
    case MarkDelivered(order, id) =>
      var p := MarkAll(order, s.byEsme, id);
      s.(queue := p.queue, byEsme := p.byEsme, totalDelivered := s.totalDelivered + p.delivered,
         log := s.log + [Marked(id)])
  }

  ghost predicate Reaches(c: Config, s: State, run: seq<Action>, s': State)
    decreases |run|
  {
    if run == [] then s' == s
    else Enabled(s, run[0]) && Reaches(c, Apply(c, s, run[0]), run[1..], s')
  }

  // -------------------------------------------------------------------------
  // What callers have seen of one schedule
  // -------------------------------------------------------------------------

  /** How often the id has been handed out by `get_due`. */
  function HandedOut(log: seq<Entry>, id: string): nat {
    if log == [] then 0
    else
      var e := log[|log| - 1];
      HandedOut(log[..|log| - 1], id) + if e.Handed? then |Held(e.due, id)| else 0
  }

  predicate WasCancelled(log: seq<Entry>, id: string) {
    CancelAcknowledged(id) in log
  }

  /** All that callers have seen of one id. */
  datatype Seen = Seen(origin: Option<Scheduled>, handed: nat, cancelled: bool)

  function See(log: seq<Entry>, id: string): Seen {
    Seen(Origin(log, id), HandedOut(log, id), WasCancelled(log, id))
  }

  lemma LogPush(log: seq<Entry>, e: Entry, id: string)
    ensures See(log + [e], id) ==
            Seen(if e.Accepted? && e.msg.id == id then Some(e.msg) else Origin(log, id),
                 HandedOut(log, id) + if e.Handed? then |Held(e.due, id)| else 0,
                 WasCancelled(log, id) || e == CancelAcknowledged(id))
  {
    assert (log + [e])[..|log|] == log;
  }

  // -------------------------------------------------------------------------
  // Invariant
  // -------------------------------------------------------------------------

  /** When a schedule is due for the (n + 1)-th time. */
  function Slot(o: Scheduled, n: nat): int {
    if n == 0 || o.recurrence.None? then o.scheduledAt else NextFrom(o.recurrence.value, Slot(o, n - 1))
  }

  function Spacing(rule: Recurrence): nat {
    rule.interval * Period(rule.frequency)
  }

  /** The slots are evenly spaced from the first on, and none after it is past the end date. */
  lemma {:induction false} SlotIs(o: Scheduled, n: nat)
    requires o.recurrence.Some? && n > 0
    ensures var rule := o.recurrence.value;
            var even := o.scheduledAt + n * Spacing(rule);
            Slot(o, n) == if rule.endDate.Some? && even > rule.endDate.value then rule.endDate.value else even
  {
    var rule := o.recurrence.value;
    assert n * Spacing(rule) == (n - 1) * Spacing(rule) + Spacing(rule);
    if n > 1 {
      SlotIs(o, n - 1);
    }
  }

  /** All that changes in a queued schedule is its status, its count and, with the count, its time. */
  predicate IsOccurrence(m: Scheduled, o: Scheduled) {
    m == o.(scheduledAt := Slot(o, m.deliveryCount), deliveryCount := m.deliveryCount, status := m.status)
  }

  /** A queued schedule agrees with the one accepted and with what callers have seen. */
  predicate QueuedGood(seen: Seen, m: Scheduled) {
    && seen.origin.Some?
    && IsOccurrence(m, seen.origin.value)
    && !seen.cancelled
    && (m.status == Pending || m.status == Delivering)
    && (m.deliveryCount > 0 ==> m.CanRepeat())
    && seen.handed == m.deliveryCount + if m.status == Delivering then 1 else 0
  }

  /** A schedule no longer queued, or never accepted. */
  predicate GoneGood(seen: Seen) {
    match seen.origin
    case None => seen.handed == 0 && !seen.cancelled
    case Some(o) =>
      && (o.Limit().Some? ==> seen.handed <= o.Limit().value)
      && (!seen.cancelled ==> o.Limit() == Some(seen.handed))
  }

  predicate Good(seen: Seen, held: seq<Scheduled>, id: string) {
    if held == [] then GoneGood(seen)
    else |held| == 1 && held[0].id == id && QueuedGood(seen, held[0])
  }

  /** How often an id stands in an ESME's index. */
  function Listed(seen: Seen, held: seq<Scheduled>, esme: string): nat {
    (if held != [] && held[0].esme == esme then 1 else 0) +
    (if seen.cancelled && seen.origin.Some? && seen.origin.value.esme == esme then 1 else 0)
  }

  predicate GoodFor(s: State, esme: string, id: string) {
    && Good(See(s.log, id), Held(s.queue, id), id)
    && multiset(Index(s.byEsme, esme))[id] == Listed(See(s.log, id), Held(s.queue, id), esme)
  }

  ghost predicate AllGood(s: State) {
    forall esme, id :: GoodFor(s, esme, id)
  }

  predicate Balanced(s: State) {
    s.totalScheduled == |s.queue| + s.totalDelivered + s.totalCancelled
  }

  /** A limit of zero still admits an ESME's first schedule: only an existing index entry is checked. */
  function EsmeLimit(c: Config): nat {
    if c.maxPerEsme == 0 then 1 else c.maxPerEsme
  }

  ghost predicate Bounded(c: Config, s: State) {
    |s.queue| <= c.maxTotal && forall esme :: |Index(s.byEsme, esme)| <= EsmeLimit(c)
  }

  ghost predicate Inv(c: Config, s: State) {
    AllGood(s) && Balanced(s) && Bounded(c, s)
  }

  // -------------------------------------------------------------------------
  // Draining in any order
  // -------------------------------------------------------------------------

  lemma {:induction false} HeldCount(q: seq<Scheduled>, id: string, m: Scheduled)
    ensures multiset(Held(q, id))[m] == if m.id == id then multiset(q)[m] else 0
  {
    if q != [] {
      HeldCount(q[..|q| - 1], id, m);
      assert q == q[..|q| - 1] + [q[|q| - 1]];
    }
  }

  lemma SmallPermutation(a: seq<Scheduled>, b: seq<Scheduled>)
    requires multiset(a) == multiset(b) && |a| <= 1
    ensures a == b
  {
    assert |b| == |multiset(b)| == |multiset(a)| == |a|;
    if |a| == 1 {
      assert a[0] in multiset(b);
    }
  }

  /** With unique ids, a permutation holds the same message under each id. */
  lemma HeldPermuted(q: seq<Scheduled>, order: seq<Scheduled>, id: string)
    requires multiset(q) == multiset(order) && |Held(q, id)| <= 1
    ensures Held(order, id) == Held(q, id)
  {
    var a, b := Held(q, id), Held(order, id);
    forall m ensures multiset(a)[m] == multiset(b)[m] {
      HeldCount(q, id, m);
      HeldCount(order, id, m);
    }
    SmallPermutation(a, b);
  }

  lemma SameLength(q: seq<Scheduled>, order: seq<Scheduled>)
    requires multiset(q) == multiset(order)
    ensures |q| == |order|
  {
    assert |q| == |multiset(q)|;
    assert |order| == |multiset(order)|;
  }

  lemma HeldPush(q: seq<Scheduled>, m: Scheduled, id: string)
    ensures Held(q + [m], id) == Held(q, id) + if m.id == id then [m] else []
  {
    assert (q + [m])[..|q|] == q;
  }

  lemma {:induction false} HeldWithout(order: seq<Scheduled>, gone: string, id: string)
    ensures Held(Without(order, gone), id) == if id == gone then [] else Held(order, id)
  {
    if order != [] {
      var rest, m := order[..|order| - 1], order[|order| - 1];
      HeldWithout(rest, gone, id);
      if m.id == gone {
        assert Without(order, gone) == Without(rest, gone);
      } else {
        HeldPush(Without(rest, gone), m, id);
      }
    }
  }

  lemma {:induction false} WithoutLength(order: seq<Scheduled>, gone: string)
    ensures |Without(order, gone)| + |Held(order, gone)| == |order|
  {
    if order != [] {
      WithoutLength(order[..|order| - 1], gone);
    }
  }

  /** How one id fares in a refill: left alone, or handed out and now Delivering. */
  predicate Taken(held: seq<Scheduled>, queue: seq<Scheduled>, due: seq<Scheduled>, now: int) {
    || (due == [] && queue == held)
    || (|held| == 1 && IsDue(held[0], now) && queue == due == [held[0].(status := Delivering)])
  }

  lemma {:induction false} HeldDue(order: seq<Scheduled>, limit: nat, now: int, id: string)
    requires |Held(order, id)| <= 1
    ensures var p := TakeDue(order, limit, now);
            Taken(Held(order, id), Held(p.queue, id), Held(p.due, id), now)
  {
    if order != [] {
      var m := order[|order| - 1];
      var rest := order[..|order| - 1];
      HeldDue(rest, limit, now, id);
      var p := TakeDue(rest, limit, now);
      assert Held(order, id) == Held(rest, id) + if m.id == id then [m] else [];
      HeldTake(p, m, limit, now, id);
    }
  }

  lemma HeldTake(p: Taking, m: Scheduled, limit: nat, now: int, id: string)
    ensures var p' := TakeOne(p, m, limit, now);
            if m.id != id then Held(p'.queue, id) == Held(p.queue, id) && Held(p'.due, id) == Held(p.due, id)
            else if |p.due| < limit && IsDue(m, now) then
              && Held(p'.queue, id) == Held(p.queue, id) + [m.(status := Delivering)]
              && Held(p'.due, id) == Held(p.due, id) + [m.(status := Delivering)]
            else Held(p'.queue, id) == Held(p.queue, id) + [m] && Held(p'.due, id) == Held(p.due, id)
  {
    if |p.due| < limit && IsDue(m, now) {
      HeldPush(p.queue, m.(status := Delivering), id);
      HeldPush(p.due, m.(status := Delivering), id);
    } else {
      HeldPush(p.queue, m, id);
    }
  }

  lemma {:induction false} TakeLength(order: seq<Scheduled>, limit: nat, now: int)
    ensures |TakeDue(order, limit, now).queue| == |order|
  {
    if order != [] {
      TakeLength(order[..|order| - 1], limit, now);
    }
  }

  function CountDue(order: seq<Scheduled>, now: int): nat {
    if order == [] then 0
    else CountDue(order[..|order| - 1], now) + if IsDue(order[|order| - 1], now) then 1 else 0
  }

  /** All that is due is handed out, up to the limit. */
  lemma {:induction false} TakeExact(order: seq<Scheduled>, limit: nat, now: int)
    ensures |TakeDue(order, limit, now).due| ==
            if CountDue(order, now) < limit then CountDue(order, now) else limit
  {
    if order != [] {
      TakeExact(order[..|order| - 1], limit, now);
    }
  }

  /** Marking touches the held message alone. */
  lemma {:induction false} HeldMark(order: seq<Scheduled>, byEsme: map<string, seq<string>>, marked: string, id: string)
    requires |Held(order, id)| <= 1
    ensures Held(MarkAll(order, byEsme, marked).queue, id) ==
            if id == marked then AfterMark(Held(order, id)) else Held(order, id)
  {
    if order != [] {
      var rest, m := order[..|order| - 1], order[|order| - 1];
      HeldMark(rest, byEsme, marked, id);
      var p := MarkAll(rest, byEsme, marked);
      HeldMarkOne(p, m, marked, id);
      if m.id == id {
        assert Held(order, id) == Held(rest, id) + [m];
        assert Held(rest, id) == [] && Held(order, id) == [m];
      } else {
        assert Held(order, id) == Held(rest, id);
      }
    }
  }

  lemma HeldMarkOne(p: Marking, m: Scheduled, marked: string, id: string)
    ensures var held := Held(MarkOne(p, m, marked).queue, id);
            if m.id != id then held == Held(p.queue, id)
            else if id == marked then held == Held(p.queue, id) + AfterMark([m])
            else held == Held(p.queue, id) + [m]
  {
    HeldPush(p.queue, m, id);
    HeldPush(p.queue, m.MarkDelivered(), id);
  }

  lemma {:induction false} MarkBalances(order: seq<Scheduled>, byEsme: map<string, seq<string>>, id: string)
    ensures var p := MarkAll(order, byEsme, id); |p.queue| + p.delivered == |order|
  {
    if order != [] {
      MarkBalances(order[..|order| - 1], byEsme, id);
    }
  }

  lemma {:induction false} RetainCount(ids: seq<string>, gone: string, id: string)
    ensures multiset(Retain(ids, gone))[id] == if id == gone then 0 else multiset(ids)[id]
  {
    if ids != [] {
      var rest, last := ids[..|ids| - 1], ids[|ids| - 1];
      RetainCount(rest, gone, id);
      CountSnoc(ids, id);
      if last == gone {
        assert Retain(ids, gone) == Retain(rest, gone);
      } else {
        CountPush(Retain(rest, gone), last, id);
      }
    }
  }

  lemma CountPush(ids: seq<string>, x: string, id: string)
    ensures multiset(ids + [x])[id] == multiset(ids)[id] + if x == id then 1 else 0
  {}

  lemma CountSnoc(ids: seq<string>, id: string)
    requires ids != []
    ensures multiset(ids)[id] == multiset(ids[..|ids| - 1])[id] + if ids[|ids| - 1] == id then 1 else 0
  {
    assert ids == ids[..|ids| - 1] + [ids[|ids| - 1]];
  }

  lemma {:induction false} RetainShrinks(ids: seq<string>, gone: string)
    ensures |Retain(ids, gone)| <= |ids|
  {
    if ids != [] {
      RetainShrinks(ids[..|ids| - 1], gone);
    }
  }

  predicate Completes(held: seq<Scheduled>) {
    held != [] && held[0].status == Delivering && held[0].MarkDelivered().status != Pending
  }

  /** The index loses an id exactly where its schedule completes. */
  lemma {:induction false} IndexMark(order: seq<Scheduled>, byEsme: map<string, seq<string>>, marked: string,
                                     esme: string, id: string)
    requires |Held(order, marked)| <= 1
    ensures var held := Held(order, marked);
            multiset(Index(MarkAll(order, byEsme, marked).byEsme, esme))[id] ==
            if Completes(held) && held[0].esme == esme && id == marked then 0
            else multiset(Index(byEsme, esme))[id]
  {
    if order != [] {
      var rest, m := order[..|order| - 1], order[|order| - 1];
      var p := MarkAll(rest, byEsme, marked);
      IndexMark(rest, byEsme, marked, esme, id);
      IndexMarkOne(p, m, marked, esme, id);
      if m.id == marked {
        assert Held(order, marked) == Held(rest, marked) + [m];
        assert Held(order, marked) == [m];
      } else {
        assert Held(order, marked) == Held(rest, marked);
      }
    }
  }

  lemma IndexMarkOne(p: Marking, m: Scheduled, marked: string, esme: string, id: string)
    ensures multiset(Index(MarkOne(p, m, marked).byEsme, esme))[id] ==
            if m.id == marked && Completes([m]) && m.esme == esme && id == marked then 0
            else multiset(Index(p.byEsme, esme))[id]
  {
    if m.id == marked && Completes([m]) && m.esme == esme {
      RetainCount(Index(p.byEsme, esme), marked, id);
    } else {
      assert Index(MarkOne(p, m, marked).byEsme, esme) == Index(p.byEsme, esme);
    }
  }

  lemma {:induction false} IndexShrinks(order: seq<Scheduled>, byEsme: map<string, seq<string>>, marked: string,
                                        esme: string)
    ensures |Index(MarkAll(order, byEsme, marked).byEsme, esme)| <= |Index(byEsme, esme)|
  {
    if order != [] {
      var rest := order[..|order| - 1];
      IndexShrinks(rest, byEsme, marked, esme);
      RetainShrinks(Index(MarkAll(rest, byEsme, marked).byEsme, esme), marked);
    }
  }

  // -------------------------------------------------------------------------
  // Every step keeps the invariant
  // -------------------------------------------------------------------------

  lemma ScheduleEffect(c: Config, s: State, msg: Scheduled, esme: string, id: string)
    requires ScheduleOutcome(c, s, msg).Ok?
    ensures var s' := Apply(c, s, Schedule(msg));
            && See(s'.log, id) == (if id == msg.id then See(s.log, id).(origin := Some(msg)) else See(s.log, id))
            && Held(s'.queue, id) == Held(s.queue, id) + (if msg.id == id then [msg] else [])
            && multiset(Index(s'.byEsme, esme))[id] ==
               multiset(Index(s.byEsme, esme))[id] + if esme == msg.esme && id == msg.id then 1 else 0
  {
    LogPush(s.log, Accepted(msg), id);
    HeldPush(s.queue, msg, id);
  }

  lemma AcceptedFor(c: Config, s: State, msg: Scheduled, esme: string, id: string)
    requires GoodFor(s, esme, id) && msg.New() && Origin(s.log, msg.id).None? && ScheduleOutcome(c, s, msg).Ok?
    ensures GoodFor(Apply(c, s, Schedule(msg)), esme, id)
  {
    ScheduleEffect(c, s, msg, esme, id);
    NewIsGood(See(s.log, id), Held(s.queue, id), msg, esme, id);
  }

  lemma RefusedFor(s: State, e: Error, esme: string, id: string)
    requires GoodFor(s, esme, id)
    ensures GoodFor(s.(log := s.log + [Refused(e)]), esme, id)
  {
    LogPush(s.log, Refused(e), id);
  }

  lemma ScheduleFor(c: Config, s: State, msg: Scheduled, esme: string, id: string)
    requires GoodFor(s, esme, id) && Enabled(s, Schedule(msg))
    ensures GoodFor(Apply(c, s, Schedule(msg)), esme, id)
  {
    var r := ScheduleOutcome(c, s, msg);
    if r.Ok? {
      AcceptedFor(c, s, msg, esme, id);
    } else {
      RefusedFor(s, r.error, esme, id);
    }
  }

  lemma NewIsGood(seen: Seen, held: seq<Scheduled>, msg: Scheduled, esme: string, id: string)
    requires Good(seen, held, id) && msg.New() && (id == msg.id ==> seen.origin.None?)
    ensures id == msg.id ==>
              && held == []
              && Good(seen.(origin := Some(msg)), [msg], id)
              && Listed(seen.(origin := Some(msg)), [msg], esme) ==
                 Listed(seen, held, esme) + if esme == msg.esme then 1 else 0
  {}

  lemma CancelSeen(s: State, order: seq<Scheduled>, gone: string, id: string)
    ensures var e := if Held(order, gone) == [] then Refused(NotFound) else CancelAcknowledged(gone);
            See(s.log + [e], id) ==
            if id == gone && Held(order, gone) != [] then See(s.log, id).(cancelled := true) else See(s.log, id)
  {
    var e := if Held(order, gone) == [] then Refused(NotFound) else CancelAcknowledged(gone);
    LogPush(s.log, e, id);
  }

  lemma CancelEffect(c: Config, s: State, order: seq<Scheduled>, gone: string, id: string)
    ensures var s' := Apply(c, s, Cancel(order, gone));
            && s'.byEsme == s.byEsme
            && Held(s'.queue, id) == (if id == gone then [] else Held(order, id))
            && See(s'.log, id) ==
               if id == gone && Held(order, id) != [] then See(s.log, id).(cancelled := true) else See(s.log, id)
  {
    HeldWithout(order, gone, id);
    CancelSeen(s, order, gone, id);
  }

  lemma CancelFor(c: Config, s: State, order: seq<Scheduled>, gone: string, esme: string, id: string)
    requires GoodFor(s, esme, id) && Enabled(s, Cancel(order, gone))
    ensures GoodFor(Apply(c, s, Cancel(order, gone)), esme, id)
  {
    HeldPermuted(s.queue, order, id);
    CancelEffect(c, s, order, gone, id);
    if Held(s.queue, id) != [] {
      CancelledIsGood(See(s.log, id), Held(s.queue, id), esme, id);
    }
  }

  lemma CancelledIsGood(seen: Seen, held: seq<Scheduled>, esme: string, id: string)
    requires Good(seen, held, id) && held != []
    ensures Good(seen.(cancelled := true), [], id)
    ensures Listed(seen.(cancelled := true), [], esme) == Listed(seen, held, esme)
  {}

  lemma GetDueFor(c: Config, s: State, order: seq<Scheduled>, limit: nat, now: int, esme: string, id: string)
    requires GoodFor(s, esme, id) && Enabled(s, GetDue(order, limit, now))
    ensures GoodFor(Apply(c, s, GetDue(order, limit, now)), esme, id)
  {
    var p := TakeDue(order, limit, now);
    LogPush(s.log, Handed(p.due), id);
    HeldPermuted(s.queue, order, id);
    HeldDue(order, limit, now, id);
    TakenIsGood(See(s.log, id), Held(s.queue, id), Held(p.queue, id), Held(p.due, id), now, esme, id);
  }

  lemma TakenIsGood(seen: Seen, held: seq<Scheduled>, queue: seq<Scheduled>, due: seq<Scheduled>, now: int,
                    esme: string, id: string)
    requires Good(seen, held, id) && Taken(held, queue, due, now)
    ensures Good(seen.(handed := seen.handed + |due|), queue, id)
    ensures Listed(seen.(handed := seen.handed + |due|), queue, esme) == Listed(seen, held, esme)
  {}

  /** What `mark_delivered` leaves of the message it finds. */
  function AfterMark(held: seq<Scheduled>): seq<Scheduled> {
    if held != [] && held[0].status == Delivering then
      if held[0].MarkDelivered().status == Pending then [held[0].MarkDelivered()] else []
    else held
  }

  lemma MarkEffect(c: Config, s: State, order: seq<Scheduled>, marked: string, esme: string, id: string)
    requires |Held(order, marked)| <= 1 && |Held(order, id)| <= 1
    ensures var s' := Apply(c, s, MarkDelivered(order, marked));
            && See(s'.log, id) == See(s.log, id)
            && Held(s'.queue, id) == (if id == marked then AfterMark(Held(order, id)) else Held(order, id))
            && multiset(Index(s'.byEsme, esme))[id] ==
               if id == marked && Completes(Held(order, id)) && Held(order, id)[0].esme == esme then 0
               else multiset(Index(s.byEsme, esme))[id]
  {
    LogPush(s.log, Marked(marked), id);
    HeldMark(order, s.byEsme, marked, id);
    IndexMark(order, s.byEsme, marked, esme, id);
  }

  lemma MarkFor(c: Config, s: State, order: seq<Scheduled>, marked: string, esme: string, id: string)
    requires GoodFor(s, esme, id) && Enabled(s, MarkDelivered(order, marked)) && |Held(s.queue, marked)| <= 1
    ensures GoodFor(Apply(c, s, MarkDelivered(order, marked)), esme, id)
  {
    HeldPermuted(s.queue, order, id);
    HeldPermuted(s.queue, order, marked);
    MarkEffect(c, s, order, marked, esme, id);
    MarkedIsGood(See(s.log, id), Held(s.queue, id), esme, id);
  }

  lemma MarkedIsGood(seen: Seen, held: seq<Scheduled>, esme: string, id: string)
    requires Good(seen, held, id)
    ensures Good(seen, AfterMark(held), id)
    ensures Listed(seen, AfterMark(held), esme) ==
            if Completes(held) && held[0].esme == esme then 0 else Listed(seen, held, esme)
  {}

  lemma Unique(c: Config, s: State, id: string)
    requires Inv(c, s)
    ensures |Held(s.queue, id)| <= 1
  {
    assert GoodFor(s, "", id);
  }

  lemma StepIsGood(c: Config, s: State, a: Action)
    requires Inv(c, s) && Enabled(s, a)
    ensures AllGood(Apply(c, s, a))
  {
    forall esme, id ensures GoodFor(Apply(c, s, a), esme, id) {
      assert GoodFor(s, esme, id);
      match a
      case Schedule(msg) => ScheduleFor(c, s, msg, esme, id);
      case Cancel(order, gone) => CancelFor(c, s, order, gone, esme, id);
      case GetDue(order, limit, now) => GetDueFor(c, s, order, limit, now, esme, id);
      case MarkDelivered(order, marked) =>
        Unique(c, s, marked);
        MarkFor(c, s, order, marked, esme, id);
    }
  }

  lemma StepIsBalanced(c: Config, s: State, a: Action)
    requires Balanced(s) && |s.queue| <= c.maxTotal && Enabled(s, a)
    requires a.Cancel? ==> |Held(s.queue, a.id)| <= 1
    ensures Balanced(Apply(c, s, a)) && |Apply(c, s, a).queue| <= c.maxTotal
  {
    match a
    case Schedule(msg) =>
    case Cancel(order, gone) =>
      HeldPermuted(s.queue, order, gone);
      WithoutLength(order, gone);
      SameLength(s.queue, order);
    case GetDue(order, limit, now) =>
      TakeLength(order, limit, now);
      SameLength(s.queue, order);
    case MarkDelivered(order, marked) =>
      MarkBalances(order, s.byEsme, marked);
      SameLength(s.queue, order);
  }

  lemma StepIsBounded(c: Config, s: State, a: Action, esme: string)
    requires |Index(s.byEsme, esme)| <= EsmeLimit(c) && Enabled(s, a)
    ensures |Index(Apply(c, s, a).byEsme, esme)| <= EsmeLimit(c)
  {
    if a.MarkDelivered? {
      IndexShrinks(a.order, s.byEsme, a.id, esme);
    }
  }

  lemma StepKeepsInv(c: Config, s: State, a: Action)
    requires Inv(c, s) && Enabled(s, a)
    ensures Inv(c, Apply(c, s, a))
  {
    StepIsGood(c, s, a);
    if a.Cancel? {
      Unique(c, s, a.id);
    }
    StepIsBalanced(c, s, a);
    forall esme ensures |Index(Apply(c, s, a).byEsme, esme)| <= EsmeLimit(c) {
      StepIsBounded(c, s, a, esme);
    }
  }

  lemma {:induction false} RunKeepsInv(c: Config, s: State, run: seq<Action>, s': State)
    requires Inv(c, s) && Reaches(c, s, run, s')
    ensures Inv(c, s')
    decreases |run|
  {
    if run != [] {
      StepKeepsInv(c, s, run[0]);
      RunKeepsInv(c, Apply(c, s, run[0]), run[1..], s');
    }
  }

  // -------------------------------------------------------------------------
  // Every run of a scheduler
  // -------------------------------------------------------------------------

  /**
   A queued schedule has been handed out once per counted delivery, plus once if
   it is being delivered now.
   */
  lemma HandOutsAreCounted(c: Config, run: seq<Action>, s: State, i: nat)
    requires Reaches(c, Init, run, s) && i < |s.queue|
    ensures var m := s.queue[i];
            HandedOut(s.log, m.id) == m.deliveryCount + if m.status == Delivering then 1 else 0
  {
    RunKeepsInv(c, Init, run, s);
    var m := s.queue[i];
    HeldCount(s.queue, m.id, m);
    assert m in multiset(s.queue);
    assert m in multiset(Held(s.queue, m.id));
    assert GoodFor(s, m.esme, m.id);
  }

  /**
   A one-shot schedule is handed out at most once and a recurring one with limit
   m > 0 at most m times, whatever else is called; an id never accepted, never.
   */
  lemma HandOutsAreLimited(c: Config, run: seq<Action>, s: State, id: string)
    requires Reaches(c, Init, run, s)
    ensures match Origin(s.log, id)
            case None => HandedOut(s.log, id) == 0
            case Some(o) => && (o.recurrence.None? ==> HandedOut(s.log, id) <= 1)
                            && (o.maxDeliveries > 0 && o.recurrence.Some? ==> HandedOut(s.log, id) <= o.maxDeliveries)
  {
    RunKeepsInv(c, Init, run, s);
    assert GoodFor(s, "", id);
  }

  /**
   No schedule is handed out early: the message handed out for the (n + 1)-th
   time is the accepted one, in its n-th slot, and that slot has come.
   */
  lemma HandOutsAreDue(c: Config, run: seq<Action>, s: State, order: seq<Scheduled>, limit: nat, now: int, m: Scheduled)
    requires Reaches(c, Init, run, s) && multiset(order) == multiset(s.queue)
    requires m in TakeDue(order, limit, now).due
    ensures var origin := Origin(s.log, m.id);
            var n := HandedOut(s.log, m.id);
            && origin.Some? && Slot(origin.value, n) <= now
            && m == origin.value.(scheduledAt := Slot(origin.value, n), deliveryCount := n, status := Delivering)
  {
    RunKeepsInv(c, Init, run, s);
    assert GoodFor(s, m.esme, m.id);
    HeldPermuted(s.queue, order, m.id);
    HandedIsHeld(order, limit, now, m);
    OccurrenceIsDue(See(s.log, m.id), Held(s.queue, m.id), m);
  }

  /** What is handed out is the one queued message of that id, which was due. */
  lemma HandedIsHeld(order: seq<Scheduled>, limit: nat, now: int, m: Scheduled)
    requires m in TakeDue(order, limit, now).due && |Held(order, m.id)| <= 1
    ensures var held := Held(order, m.id);
            |held| == 1 && IsDue(held[0], now) && m == held[0].(status := Delivering)
  {
    HeldDue(order, limit, now, m.id);
    HeldContains(TakeDue(order, limit, now).due, m.id, m);
    assert m in [Held(order, m.id)[0].(status := Delivering)];
  }

  lemma OccurrenceIsDue(seen: Seen, held: seq<Scheduled>, m: Scheduled)
    requires Good(seen, held, m.id) && |held| == 1 && held[0].status == Pending && m == held[0].(status := Delivering)
    ensures seen.origin.Some? && held[0].scheduledAt == Slot(seen.origin.value, seen.handed)
    ensures m == seen.origin.value.(scheduledAt := Slot(seen.origin.value, seen.handed), deliveryCount := seen.handed,
                                    status := Delivering)
  {}

  /** Every accepted schedule is still queued, delivered for good, or cancelled. */
  lemma SchedulesAreConserved(c: Config, run: seq<Action>, s: State)
    requires Reaches(c, Init, run, s)
    ensures s.totalScheduled == |s.queue| + s.totalDelivered + s.totalCancelled
  {
    RunKeepsInv(c, Init, run, s);
  }

  lemma HeldContains(q: seq<Scheduled>, id: string, m: Scheduled)
    ensures m in Held(q, id) <==> m in q && m.id == id
  {
    HeldCount(q, id, m);
    assert m in Held(q, id) <==> m in multiset(Held(q, id));
    assert m in q <==> m in multiset(q);
  }

  lemma HeldExists(q: seq<Scheduled>, id: string)
    ensures Held(q, id) != [] <==> exists m :: m in q && m.id == id
  {
    var held := Held(q, id);
    forall m ensures m in held <==> m in q && m.id == id {
      HeldContains(q, id, m);
    }
    if held != [] {
      assert held[0] in held;
    }
  }

  /** An ESME's index lists its queued ids and its cancelled ids, each once, and nothing else. */
  lemma IndexIsExact(c: Config, run: seq<Action>, s: State, esme: string, id: string)
    requires Reaches(c, Init, run, s)
    ensures var queued := exists m :: m in s.queue && m.id == id && m.esme == esme;
            var cancelled := WasCancelled(s.log, id) && Origin(s.log, id).Some? && Origin(s.log, id).value.esme == esme;
            && multiset(Index(s.byEsme, esme))[id] == (if queued || cancelled then 1 else 0)
            && !(queued && cancelled)
  {
    RunKeepsInv(c, Init, run, s);
    assert GoodFor(s, esme, id);
    var held := Held(s.queue, id);
    forall m ensures m in held <==> m in s.queue && m.id == id {
      HeldContains(s.queue, id, m);
    }
    if held != [] {
      assert held[0] in held;
    }
  }

  function CountEsme(q: seq<Scheduled>, esme: string): nat {
    if q == [] then 0
    else CountEsme(q[..|q| - 1], esme) + if q[|q| - 1].esme == esme then 1 else 0
  }

  /** If each of an ESME's messages is listed, there are at most as many messages as entries. */
  lemma {:induction false} ListedBounds(q: seq<Scheduled>, esme: string, ids: multiset<string>)
    requires forall id :: |Held(q, id)| <= 1
    requires forall m | m in q && m.esme == esme :: m.id in ids
    ensures CountEsme(q, esme) <= |ids|
  {
    if q != [] {
      var rest, last := q[..|q| - 1], q[|q| - 1];
      forall id ensures |Held(rest, id)| <= 1 {
        assert |Held(q, id)| <= 1;
      }
      if last.esme == esme {
        forall m | m in rest && m.esme == esme ensures m.id in ids - multiset{last.id} {
          HeldCount(rest, last.id, m);
          assert m in multiset(rest);
          assert |Held(q, last.id)| <= 1;
          assert Held(rest, last.id) == [];
          assert m.id != last.id;
          assert m in q;
        }
        ListedBounds(rest, esme, ids - multiset{last.id});
      } else {
        ListedBounds(rest, esme, ids);
      }
    }
  }

  /** The configured limits hold in every run. */
  lemma LimitsHold(c: Config, run: seq<Action>, s: State, esme: string)
    requires Reaches(c, Init, run, s)
    ensures |s.queue| <= c.maxTotal
    ensures CountEsme(s.queue, esme) <= EsmeLimit(c)
  {
    RunKeepsInv(c, Init, run, s);
    var index := Index(s.byEsme, esme);
    forall id ensures |Held(s.queue, id)| <= 1 {
      Unique(c, s, id);
    }
    forall m | m in s.queue && m.esme == esme ensures m.id in multiset(index) {
      IndexIsExact(c, run, s, esme, m.id);
    }
    ListedBounds(s.queue, esme, multiset(index));
    assert |multiset(index)| == |index|;
  }

  /** With a per-ESME limit of zero, the first schedule is let in all the same. */
  lemma ZeroLimitAdmits(c: Config, msg: Scheduled)
    requires c.maxPerEsme == 0 && c.maxTotal > 0 && msg.New()
    ensures var s := Apply(c, Init, Schedule(msg));
            Reaches(c, Init, [Schedule(msg)], s) && CountEsme(s.queue, msg.esme) == 1
  {
    var s := Apply(c, Init, Schedule(msg));
    assert [Schedule(msg)][1..] == [];
    assert s.queue == [msg];
    assert [msg][..0] == [];
  }

  ghost predicate KeepsEsmeLimit(c: Config) {
    forall run, s, esme | Reaches(c, Init, run, s) :: CountEsme(s.queue, esme) <= c.maxPerEsme
  }

  /** Every run keeps every ESME within the configured limit if and only if that limit, or the whole queue's, allows it. */
  lemma EsmeLimitHoldsIff(c: Config)
    ensures KeepsEsmeLimit(c) <==> c.maxPerEsme >= 1 || c.maxTotal == 0
  {
    if c.maxPerEsme >= 1 || c.maxTotal == 0 {
      forall run, s, esme | Reaches(c, Init, run, s) ensures CountEsme(s.queue, esme) <= c.maxPerEsme {
        LimitsHold(c, run, s, esme);
        if c.maxTotal == 0 {
          assert s.queue == [];
        }
      }
    } else {
      var content := Messages.Content("", "", [], "", 0, None, None, None, 0, 0, None, None, 0);
      var stored := Messages.StoredMessage(0, Messages.MessageState.Pending, Messages.Normal, content, 0, 0, None);
      var msg := Scheduled("", stored, 0, None, 0, 0, Pending, "");
      ZeroLimitAdmits(c, msg);
      var s := Apply(c, Init, Schedule(msg));
      assert CountEsme(s.queue, msg.esme) > c.maxPerEsme;
    }
  }
}
