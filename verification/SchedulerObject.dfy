/**
 The scheduler as an object: the loops that drain and refill its queue in place
 are the steps over which runs are stated.
 */
module SchedulerObject {
  import opened Wrappers
  import opened Scheduler
  import opened SchedulerDelivery

  class MessageScheduler {
    const config: Config
    var queue: seq<Scheduled>
    var byEsme: map<string, seq<string>>
    var totalScheduled: nat
    var totalDelivered: nat
    var totalCancelled: nat
    ghost var log: seq<Entry>

    constructor (c: Config)
      ensures config == c && View() == Init
    {
      config := c;
      queue, byEsme := [], map[];
      totalScheduled, totalDelivered, totalCancelled := 0, 0, 0;
      log := [];
    }

    ghost function View(): State
      reads this
    {
      State(queue, byEsme, totalScheduled, totalDelivered, totalCancelled, log)
    }

    method Schedule(msg: Scheduled) returns (r: Result<string, Error>)
      modifies this
      ensures View() == Apply(config, old(View()), Action.Schedule(msg))
      ensures log == old(log) + [if r.Ok? then Accepted(msg) else Refused(r.error)]
    {
      if |queue| >= config.maxTotal {
        log := log + [Refused(TotalLimitExceeded)];
        return Err(TotalLimitExceeded);
      }
      if msg.esme in byEsme {
        if |byEsme[msg.esme]| >= config.maxPerEsme {
          log := log + [Refused(EsmeLimitExceeded)];
          return Err(EsmeLimitExceeded);
        }
      }
      queue := queue + [msg];
      if msg.esme !in byEsme {
        byEsme := byEsme[msg.esme := []];
      }
      byEsme := byEsme[msg.esme := byEsme[msg.esme] + [msg.id]];
      totalScheduled := totalScheduled + 1;
      log := log + [Accepted(msg)];
      return Ok(msg.id);
    }

    /** Puts back all but the cancelled id. */
    method RefillWithout(order: seq<Scheduled>, id: string) returns (found: bool)
      modifies this`queue
      ensures queue == Without(order, id)
      ensures found <==> Held(order, id) != []
    {
      queue := [];
      found := false;
      for i := 0 to |order|
        invariant queue == Without(order[..i], id)
        invariant found <==> Held(order[..i], id) != []
      {
        assert order[..i + 1][..i] == order[..i];
        if order[i].id == id {
          found := true;
        } else {
          queue := queue + [order[i]];
        }
      }
      assert order[..|order|] == order;
    }

    /** `order` is the queue as the heap drains it. */
    method Cancel(order: seq<Scheduled>, id: string) returns (r: Result<(), Error>)
      requires multiset(order) == multiset(queue)
      modifies this
      ensures View() == Apply(config, old(View()), Action.Cancel(order, id))
      ensures r.Ok? <==> exists m :: m in order && m.id == id
      ensures r.Err? ==> r.error == NotFound
    {
      var found := RefillWithout(order, id);
      HeldExists(order, id);
      if found {
        totalCancelled := totalCancelled + 1;
        log := log + [CancelAcknowledged(id)];
        return Ok(());
      } else {
        log := log + [Refused(NotFound)];
        return Err(NotFound);
      }
    }

    method GetDue(order: seq<Scheduled>, limit: nat, now: int) returns (due: seq<Scheduled>)
      requires multiset(order) == multiset(queue)
      modifies this
      ensures View() == Apply(config, old(View()), Action.GetDue(order, limit, now))
      ensures log == old(log) + [Handed(due)]
      ensures |due| == if CountDue(order, now) < limit then CountDue(order, now) else limit
      ensures forall m | m in old(queue) && m.status == Pending && m.scheduledAt <= now ::
                m.(status := Delivering) in due || |due| == limit
    {
      DueAreHandedOut(queue, order, limit, now);
      TakeExact(order, limit, now);
      queue := [];
      due := [];
      for i := 0 to |order|
        invariant Taking(queue, due) == TakeDue(order[..i], limit, now)
        invariant byEsme == old(byEsme) && log == old(log)
        invariant totalScheduled == old(totalScheduled) && totalDelivered == old(totalDelivered)
        invariant totalCancelled == old(totalCancelled)
      {
        assert order[..i + 1][..i] == order[..i];
        var msg := order[i];
        if |due| < limit && msg.scheduledAt <= now && msg.status == Pending {
          msg := msg.(status := Delivering);
          due := due + [msg];
        }
        queue := queue + [msg];
      }
      assert order[..|order|] == order;
      log := log + [Handed(due)];
    }

    method MarkDelivered(order: seq<Scheduled>, id: string)
      requires multiset(order) == multiset(queue)
      modifies this
      ensures View() == Apply(config, old(View()), Action.MarkDelivered(order, id))
    {
      queue := [];
      for i := 0 to |order|
        invariant totalDelivered >= old(totalDelivered)
        invariant Marking(queue, byEsme, totalDelivered - old(totalDelivered)) == MarkAll(order[..i], old(byEsme), id)
        invariant totalScheduled == old(totalScheduled) && totalCancelled == old(totalCancelled) && log == old(log)
      {
        assert order[..i + 1][..i] == order[..i];
        var msg := order[i];
        if msg.id == id && msg.status == Delivering {
          msg := msg.MarkDelivered();
          if msg.status == Pending {
            queue := queue + [msg];
          } else {
            if msg.esme in byEsme {
              byEsme := byEsme[msg.esme := Retain(byEsme[msg.esme], id)];
            }
            totalDelivered := totalDelivered + 1;
          }
        } else {
          queue := queue + [msg];
        }
      }
      assert order[..|order|] == order;
      log := log + [Marked(id)];
    }
  }
}
