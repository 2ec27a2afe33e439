/** Timers do what was asked of them: their terms, their ticks, their callbacks, and never before their time. */
module TimerOrders {
  import opened Common
  import opened TimerModel
  import opened TimerRuns
  import opened TimerTheorems
  import opened TimerFirings

  /** When an order is first due: at its deadline, or at once if that had passed when it was given. */
  function First(o: Order): int { if o.now < o.deadline then o.deadline else o.now }

  function TickOf(o: Order, k: int): int { First(o) + k * o.interval }

  /** `at` is the time of the order, or for a periodic one its time plus a whole number of intervals. */
  ghost predicate OnTime(o: Order, at: int) {
    if o.repeating then exists k :: k >= 0 && at == TickOf(o, k) else at == First(o)
  }

  /** A live timer has the terms of its order, and its deadline is one of its times. */
  ghost predicate AsOrdered(s: State, id: nat) {
    && (id in s.orders <==> INVALID_TIMER_ID < id < s.core.nextId)
    && (id in s.core.timers ==>
          id in s.orders &&
          var e, o := s.core.timers[id], s.orders[id];
          e.interval == o.interval && e.repeating == o.repeating && e.callback == o.callback && OnTime(o, e.deadline))
  }

  /** Firing `k` carries the callback ordered, and was issued by a drain no earlier than the order is due. */
  ghost predicate FiredAsOrdered(s: State, k: nat) {
    && |s.issuedAt| == |s.issued|
    && (k < |s.issued| ==>
          s.issued[k].id in s.orders &&
          var o := s.orders[s.issued[k].id]; s.issued[k].callback == o.callback && s.issuedAt[k] >= First(o))
  }

  lemma NotBefore(o: Order, at: int)
    requires OnTime(o, at) && (o.repeating ==> o.interval > 0)
    ensures at >= First(o)
  {
    if o.repeating {
      var k :| k >= 0 && at == TickOf(o, k);
      Monotone(0, k, o.interval);
    }
  }

  /** Moving on by whole intervals stays on the ticks of the order. */
  lemma StaysOnTime(o: Order, e: TimerEntry, now: int, e': TimerEntry)
    requires OnTime(o, e.deadline) && o.repeating && e.interval == o.interval && MovedOn(e, now, e')
    ensures OnTime(o, e'.deadline)
  {
    var k :| k >= 0 && e.deadline == TickOf(o, k);
    var m :| m >= 1 && e'.deadline == Tick(e, m) && Tick(e, m - 1) <= now < Tick(e, m);
    assert k * o.interval + m * o.interval == (k + m) * o.interval;
    assert e'.deadline == TickOf(o, k + m);
  }

  // ---------- Every step keeps to the orders ----------

  /** What an accepted call of addTimer leaves, without any of the scheduler's own definitions. */
  lemma AddTakesEffect(s: State, i: nat, call: Call, now: int)
    requires i < |s.clients| && call.Add? && !s.core.shuttingDown && (call.repeating ==> call.interval > 0)
    ensures var s', id := CallStep(s, i, call, now), s.core.nextId;
            var o := Order(now, call.deadline, call.interval, call.repeating, call.callback);
            && s'.core.timers == s.core.timers[id := TimerEntry(id, First(o), o.interval, o.repeating, 1, o.callback)]
            && s'.core.nextId == id + 1 && s'.orders == s.orders[id := o]
            && s'.issued == s.issued && s'.issuedAt == s.issuedAt && s'.clients == s.clients[i := Notifying]
  {
  }

  /** A refused one leaves everything as it was. */
  lemma RefusedAdd(s: State, i: nat, call: Call, now: int)
    requires i < |s.clients| && call.Add? && (s.core.shuttingDown || (call.repeating && call.interval <= 0))
    ensures CallStep(s, i, call, now) == s
  {
  }

  /** A live identifier is cancelled, counted and gone; any other cancel does nothing. */
  lemma CancelTakesEffect(s: State, i: nat, id: nat, now: int)
    requires i < |s.clients|
    ensures var s' := CallStep(s, i, Cancel(id), now);
            if id != 0 && id in s.core.timers then
              && s'.core == s.core.(timers := s.core.timers - {id}, cancelled := s.core.cancelled + 1)
              && s'.fate == s.fate[id := Cancelled] && s'.clients == s.clients[i := Notifying]
              && s'.issued == s.issued && s'.issuedAt == s.issuedAt && s'.orders == s.orders
            else s' == s
  {
    assert Sentence(s.fate, {id}, Cancelled) == s.fate[id := Cancelled];
  }

  /** Cancelling all, and shutting down, end every live timer. */
  lemma RemovalTakesEffect(s: State, i: nat, call: Call, now: int)
    requires i < |s.clients| && (call.CancelAll? || call.Shutdown?)
    ensures var s' := CallStep(s, i, call, now);
            && s'.core.timers == map[] && s'.core.nextId == s.core.nextId
            && s'.core.shuttingDown == (s.core.shuttingDown || call.Shutdown?)
            && s'.core.cancelled == s.core.cancelled + (if call.CancelAll? then |s.core.timers| else 0)
            && s'.issued == s.issued && s'.issuedAt == s.issuedAt && s'.orders == s.orders
            && (forall id :: id in s.core.timers ==>
                  id in s'.fate && s'.fate[id] == if call.CancelAll? then Cancelled else Dropped)
  {
  }

  /** A call gives the next identifier to a new order, or removes timers; it fires nothing. */
  ghost predicate Takes(s: State, s': State) {
    && s'.issued == s.issued && s'.issuedAt == s.issuedAt
    && ((s'.core.nextId == s.core.nextId && s'.orders == s.orders &&
         forall id :: id in s'.core.timers ==> id in s.core.timers && s'.core.timers[id] == s.core.timers[id])
        || exists o :: NewOrder(s, o, s'))
  }

  ghost predicate NewOrder(s: State, o: Order, s': State) {
    var id := s.core.nextId;
    && s'.core.timers == s.core.timers[id := TimerEntry(id, First(o), o.interval, o.repeating, 1, o.callback)]
    && s'.core.nextId == id + 1 && s'.orders == s.orders[id := o]
  }

  lemma CallTakes(s: State, i: nat, call: Call, now: int)
    requires i < |s.clients|
    ensures Takes(s, CallStep(s, i, call, now))
  {
    hide CallStep;
    var s' := CallStep(s, i, call, now);
    match call
    case Add(deadline, interval, repeating, callback) =>
      if s.core.shuttingDown || (repeating && interval <= 0) {
        RefusedAdd(s, i, call, now);
      } else {
        AddTakesEffect(s, i, call, now);
        assert NewOrder(s, Order(now, deadline, interval, repeating, callback), s');
      }
    case Cancel(gone) => CancelTakesEffect(s, i, gone, now);
    case CancelAll => RemovalTakesEffect(s, i, call, now);
    case Shutdown => RemovalTakesEffect(s, i, call, now);
  }

  lemma NewAsOrdered(s: State, o: Order, s': State, id: nat)
    requires Inv(s) && AsOrdered(s, id) && NewOrder(s, o, s')
    ensures AsOrdered(s', id)
  {
    hide OnTime, WakesInTime, Delivery, WorkersWake, ShutdownOrder, Partition;
    FirstIsOnTime(o);
  }

  lemma FirstIsOnTime(o: Order)
    ensures OnTime(o, First(o))
  {
    assert TickOf(o, 0) == First(o);
  }

  lemma CallAsOrdered(s: State, s': State, id: nat)
    requires Inv(s) && AsOrdered(s, id) && Takes(s, s')
    ensures AsOrdered(s', id)
  {
    hide Inv, OnTime;
    if exists o :: NewOrder(s, o, s') {
      var o :| NewOrder(s, o, s');
      NewAsOrdered(s, o, s', id);
    }
  }

  lemma CallFiredAsOrdered(s: State, s': State, k: nat)
    requires Inv(s) && FiredAsOrdered(s, k) && AsOrdered(s, s.core.nextId) && Takes(s, s')
    ensures FiredAsOrdered(s', k)
  {
  }

  lemma DrainAsOrdered(s: State, later: int, batch: seq<nat>, id: nat)
    requires Inv(s) && AsOrdered(s, id) && IsDueList(s.core.timers, later, batch)
    ensures AsOrdered(DrainStep(s, later, batch), id)
  {
    DrainIsExact(s.core, batch, later);
    var s' := DrainStep(s, later, batch);
    if id in s'.core.timers && id in batch {
      StaysOnTime(s.orders[id], s.core.timers[id], later, s'.core.timers[id]);
    }
  }

  /** Each firing a drain issues is of a timer that is due, with that timer's callback, at the drain's time. */
  lemma DrainIssues(s: State, later: int, batch: seq<nat>, k: nat)
    requires IsDueList(s.core.timers, later, batch) && |s.issuedAt| == |s.issued|
    ensures var s', n := DrainStep(s, later, batch), |s.issued|;
            && |s'.issued| == |s'.issuedAt| == n + |batch| && s'.orders == s.orders
            && (k < n ==> s'.issued[k] == s.issued[k] && s'.issuedAt[k] == s.issuedAt[k])
            && (n <= k < n + |batch| ==>
                  var id := batch[k - n];
                  && id in batch && id in s.core.timers && s.core.timers[id].deadline <= later
                  && s'.issued[k].id == id && s'.issued[k].callback == s.core.timers[id].callback
                  && s'.issuedAt[k] == later)
  {
    hide DrainSection;
    if |s.issued| <= k < |s.issued| + |batch| { assert batch[k - |s.issued|] in batch; }
  }

  lemma DrainFiredAsOrdered(s: State, later: int, batch: seq<nat>, k: nat)
    requires Inv(s) && FiredAsOrdered(s, k) && IsDueList(s.core.timers, later, batch)
    requires forall id: nat :: AsOrdered(s, id)
    ensures FiredAsOrdered(DrainStep(s, later, batch), k)
  {
    hide DrainStep, IsDueList, OnTime;
    DrainIssues(s, later, batch, k);
    if |s.issued| <= k < |s.issued| + |batch| {
      var id := batch[k - |s.issued|];
      assert AsOrdered(s, id);
      NotBefore(s.orders[id], s.core.timers[id].deadline);
    }
  }

  lemma StepAsOrdered(s: State, a: Action, id: nat, k: nat)
    requires Inv(s) && FiredAsOrdered(s, k) && forall id: nat :: AsOrdered(s, id)
    ensures AsOrdered(Step(s, a), id) && FiredAsOrdered(Step(s, a), k)
  {
    StepCases(s, a);
    assert AsOrdered(s, id) && AsOrdered(s, s.core.nextId);
    if !SameOrders(s, Step(s, a)) {
      if a.ByClient? {
        CallTakes(s, a.i, a.call, a.now);
        CallAsOrdered(s, Step(s, a), id);
        CallFiredAsOrdered(s, Step(s, a), k);
      } else {
        DrainAsOrdered(s, a.later, a.batch, id);
        DrainFiredAsOrdered(s, a.later, a.batch, k);
      }
    }
  }

  lemma {:induction false} RunAsOrdered(clients: nat, workers: nat, run: seq<Action>, id: nat, k: nat)
    ensures AsOrdered(Exec(Init(clients, workers), run), id) && FiredAsOrdered(Exec(Init(clients, workers), run), k)
  {
    if run != [] {
      var before := run[..|run| - 1];
      forall id: nat ensures AsOrdered(Exec(Init(clients, workers), before), id) {
        RunAsOrdered(clients, workers, before, id, k);
      }
      RunAsOrdered(clients, workers, before, id, k);
      StepAsOrdered(Reached(clients, workers, before), run[|run| - 1], id, k);
    }
  }

  // ---------- Main results over every run ----------

  /**
   In every reachable state, whatever was issued for an identifier carries the callback it was added with, and comes
   from a drain whose time is no earlier than the deadline asked for, nor than the time of asking.
   */
  lemma NoTimerFiresEarly(clients: nat, workers: nat, run: seq<Action>, k: nat)
    requires k < |Exec(Init(clients, workers), run).issued|
    ensures var s := Exec(Init(clients, workers), run); var f := s.issued[k];
            && |s.issuedAt| == |s.issued| && f.id in s.orders && f.callback == s.orders[f.id].callback
            && s.issuedAt[k] >= s.orders[f.id].deadline && s.issuedAt[k] >= s.orders[f.id].now
  {
    RunAsOrdered(clients, workers, run, 0, k);
  }

  /**
   In every reachable state a live timer has the interval, kind and callback it was added with.  A one-shot's deadline
   is the one asked for, or the time of asking if that was later; a periodic timer's is a whole number of intervals
   after that, so however late it fires it keeps its phase.
   */
  lemma TimersKeepTheirTerms(clients: nat, workers: nat, run: seq<Action>, id: nat)
    requires id in Exec(Init(clients, workers), run).core.timers
    ensures var s := Exec(Init(clients, workers), run);
            id in s.orders && KeepsTerms(s.core.timers[id], s.orders[id])
  {
    RunAsOrdered(clients, workers, run, id, 0);
    TermsOf(Reached(clients, workers, run), id);
  }

  ghost predicate KeepsTerms(e: TimerEntry, o: Order) {
    && e.interval == o.interval && e.repeating == o.repeating && e.callback == o.callback
    && (e.repeating ==> e.interval > 0)
    && var first := if o.now < o.deadline then o.deadline else o.now;
       if e.repeating then e.deadline >= first && (e.deadline - first) % e.interval == 0 else e.deadline == first
  }

  lemma TermsOf(s: State, id: nat)
    requires Inv(s) && AsOrdered(s, id) && id in s.core.timers
    ensures KeepsTerms(s.core.timers[id], s.orders[id])
  {
    var e, o := s.core.timers[id], s.orders[id];
    NotBefore(o, e.deadline);
    if e.repeating {
      var k :| k >= 0 && e.deadline == TickOf(o, k);
      WholeIntervals(k, o.interval);
    }
  }

  lemma WholeIntervals(k: int, interval: int)
    requires interval > 0
    ensures (k * interval) % interval == 0
  {
    var q, r := (k * interval) / interval, (k * interval) % interval;
    assert interval * (k - q) == r;
    if k - q >= 1 {
      Monotone(1, k - q, interval);
    } else if k - q <= -1 {
      Monotone(k - q, -1, interval);
    }
  }
}
