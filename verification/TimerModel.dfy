/** The timers as a plain map, and what each critical section of the scheduler's mutex does to it. */
module TimerModel {
  import opened Common
  import opened TimerHeap

  datatype Callback = Callback(token: nat)

  datatype TimerEntry = TimerEntry(
    id: nat, deadline: int, interval: int, repeating: bool, generation: nat, callback: Callback)

  const INVALID_TIMER_ID: nat := 0

  /** What the scheduler's mutex protects, without the heap that indexes it. */
  datatype Core = Core(timers: map<nat, TimerEntry>, nextId: nat, shuttingDown: bool,
                       scheduled: nat, cancelled: nat, fired: nat)

  /** One firing: the timer and the callback it had. */
  datatype Firing = Firing(id: nat, callback: Callback)

  predicate WellFormed(c: Core) {
    c.nextId > INVALID_TIMER_ID &&
    forall id :: id in c.timers ==>
      c.timers[id].id == id && INVALID_TIMER_ID < id < c.nextId &&
      (c.timers[id].repeating ==> c.timers[id].interval > 0)
  }

  // ---------- Periodic timers ----------

  /** The first deadline + k * interval, k >= 1, after `now`. */
  function NextDeadline(deadline: int, interval: int, now: int): int
    requires interval > 0
  {
    if deadline > now then deadline + interval
    else deadline + ((now - deadline) / interval + 1) * interval
  }

  lemma Monotone(m: int, n: int, interval: int)
    requires interval > 0
    ensures m <= n ==> m * interval <= n * interval
  {
  }

  lemma QuotientBounds(d: int, interval: int)
    requires interval > 0
    ensures d / interval * interval <= d < (d / interval + 1) * interval
  {
    assert (d / interval + 1) * interval == d / interval * interval + interval;
  }

  lemma NextDeadlineIsLeast(deadline: int, interval: int, now: int, k: int)
    requires interval > 0 && deadline <= now
    ensures NextDeadline(deadline, interval, now) > now
    ensures k >= 1 && deadline + k * interval > now ==> NextDeadline(deadline, interval, now) <= deadline + k * interval
  {
    var q := (now - deadline) / interval;
    QuotientBounds(now - deadline, interval);
    Monotone(k, q, interval);
    Monotone(q + 1, k, interval);
  }

  lemma NextDeadlineIs(deadline: int, interval: int, now: int, k: int)
    requires interval > 0 && deadline <= now && k >= 1
    requires deadline + (k - 1) * interval <= now < deadline + k * interval
    ensures NextDeadline(deadline, interval, now) == deadline + k * interval
  {
    NextDeadlineIsLeast(deadline, interval, now, k);
    var m := (now - deadline) / interval + 1;
    assert m < k ==> m * interval <= (k - 1) * interval by { Monotone(m, k - 1, interval); }
  }

  function Rearm(e: TimerEntry, now: int): TimerEntry {
    if e.interval > 0 && e.deadline <= now
    then e.(deadline := NextDeadline(e.deadline, e.interval, now), generation := e.generation + 1)
    else e
  }

  // ---------- Due timers ----------

  predicate IsDue(timers: map<nat, TimerEntry>, now: int, id: nat) {
    id in timers && timers[id].deadline <= now
  }

  predicate Earlier(timers: map<nat, TimerEntry>, a: nat, b: nat) {
    a in timers && b in timers &&
    (timers[a].deadline < timers[b].deadline || (timers[a].deadline == timers[b].deadline && a < b))
  }

  /** `ids` are distinct and in (deadline, id) order. */
  ghost predicate InOrder(timers: map<nat, TimerEntry>, ids: seq<nat>) {
    forall i, j :: 0 <= i < j < |ids| ==> Earlier(timers, ids[i], ids[j])
  }

  /** `ids` are exactly the timers due at `now`, each once, in (deadline, id) order. */
  ghost predicate IsDueList(timers: map<nat, TimerEntry>, now: int, ids: seq<nat>) {
    InOrder(timers, ids) && forall id :: id in ids <==> IsDue(timers, now, id)
  }

  lemma HeadIsFirst(timers: map<nat, TimerEntry>, xs: seq<nat>, id: nat)
    requires xs != [] && InOrder(timers, xs) && id in xs
    ensures id == xs[0] || Earlier(timers, xs[0], id)
  {
  }

  /** There is only one such list. */
  lemma {:induction false} DueListUnique(timers: map<nat, TimerEntry>, xs: seq<nat>, ys: seq<nat>)
    requires InOrder(timers, xs) && InOrder(timers, ys) && forall id :: id in xs <==> id in ys
    ensures xs == ys
  {
    assert (xs != [] ==> xs[0] in xs) && (ys != [] ==> ys[0] in ys);
    if xs != [] {
      HeadIsFirst(timers, xs, ys[0]);
      HeadIsFirst(timers, ys, xs[0]);
      forall id ensures id in xs[1..] <==> id in ys[1..] {
        TailMembers(timers, xs, id);
        TailMembers(timers, ys, id);
      }
      DueListUnique(timers, xs[1..], ys[1..]);
    }
  }

  lemma TailMembers(timers: map<nat, TimerEntry>, xs: seq<nat>, id: nat)
    requires xs != [] && InOrder(timers, xs)
    ensures id in xs[1..] <==> id in xs && id != xs[0]
  {
    assert xs == [xs[0]] + xs[1..];
    assert forall k :: 0 <= k < |xs| - 1 ==> xs[1..][k] == xs[k + 1] && Earlier(timers, xs[0], xs[k + 1]);
  }

  /** Among live timers there is always one that comes first. */
  lemma {:induction false} FirstOf(timers: map<nat, TimerEntry>, ids: set<nat>) returns (first: nat)
    requires ids != {} && ids <= timers.Keys
    ensures first in ids && forall id :: id in ids ==> id == first || Earlier(timers, first, id)
  {
    var x :| x in ids;
    first := x;
    if ids != {x} {
      var y := FirstOf(timers, ids - {x});
      first := if Earlier(timers, x, y) then x else y;
      assert forall id :: id in ids ==> id == x || id in ids - {x};
    }
  }

  /** Every set of live timers can be listed in order. */
  lemma {:induction false} ListOf(timers: map<nat, TimerEntry>, ids: set<nat>) returns (list: seq<nat>)
    requires ids <= timers.Keys
    ensures InOrder(timers, list) && forall id :: id in list <==> id in ids
  {
    list := [];
    if ids != {} {
      var first := FirstOf(timers, ids);
      list := ListOf(timers, ids - {first});
      list := [first] + list;
    }
  }

  /** The timers once `ids` have fired: one-shots are gone, repeating ones are re-armed, others are untouched. */
  function Fire(timers: map<nat, TimerEntry>, ids: seq<nat>, now: int): map<nat, TimerEntry> {
    map id | id in timers && (id in ids ==> timers[id].repeating) ::
      if id in ids then Rearm(timers[id], now) else timers[id]
  }

  function Firings(timers: map<nat, TimerEntry>, ids: seq<nat>): seq<Firing> {
    seq(|ids|, k requires 0 <= k < |ids| =>
      Firing(ids[k], if ids[k] in timers then timers[ids[k]].callback else Callback(0)))
  }

  // ---------- Critical sections ----------

  function AddSection(c: Core, now: int, deadline: int, interval: int, repeating: bool, callback: Callback): (Core, nat) {
    if c.shuttingDown then (c, INVALID_TIMER_ID)
    else
      var at := if deadline < now then now else deadline;
      (c.(timers := c.timers[c.nextId := TimerEntry(c.nextId, at, interval, repeating, 1, callback)],
          nextId := c.nextId + 1, scheduled := c.scheduled + 1), c.nextId)
  }

  function CancelSection(c: Core, id: nat): (Core, bool) {
    if id == INVALID_TIMER_ID || id !in c.timers then (c, false)
    else (c.(timers := c.timers - {id}, cancelled := c.cancelled + 1), true)
  }

  function CancelAllSection(c: Core): (Core, nat) {
    (c.(timers := map[], cancelled := c.cancelled + |c.timers|), |c.timers|)
  }

  function ShutdownSection(c: Core): Core {
    c.(shuttingDown := true, timers := map[])
  }

  function DrainSection(c: Core, ids: seq<nat>, now: int): Core {
    c.(timers := Fire(c.timers, ids, now), fired := c.fired + |ids|)
  }

  /** What the scheduler does when it looks at the timers: stop, sleep (for good or until a deadline), or drain. */
  datatype Decision = Exit | Sleep(until: Option<int>) | Drain

  ghost predicate IsEarliest(timers: map<nat, TimerEntry>, at: int) {
    (exists id :: id in timers && timers[id].deadline == at) &&
    (forall id :: id in timers ==> at <= timers[id].deadline)
  }

  /** The decision a plain scan of all live timers would make. */
  ghost predicate Decides(c: Core, now: int, d: Decision) {
    match d
    case Exit => c.shuttingDown
    case Sleep(None) => !c.shuttingDown && c.timers == map[]
    case Sleep(Some(at)) => !c.shuttingDown && IsEarliest(c.timers, at) && at > now
    case Drain => !c.shuttingDown && exists id :: id in c.timers && c.timers[id].deadline <= now
  }

  // ---------- What a drain does, in arithmetic ----------

  /** The `k`-th tick of a periodic timer after its present deadline. */
  function Tick(e: TimerEntry, k: int): int { e.deadline + k * e.interval }

  /** `e'` is the timer `e` moved on to the only one of its ticks that comes next after `now`. */
  ghost predicate MovedOn(e: TimerEntry, now: int, e': TimerEntry) {
    && e'.id == e.id && e'.interval == e.interval && e'.repeating == e.repeating && e'.callback == e.callback
    && e'.generation == e.generation + 1
    && exists k :: k >= 1 && e'.deadline == Tick(e, k) && Tick(e, k - 1) <= now < Tick(e, k)
  }

  /** `ids` lists exactly the timers with deadline <= now, by deadline and among equals by identifier, each once. */
  ghost predicate ListsDue(was: map<nat, TimerEntry>, now: int, ids: seq<nat>) {
    && (forall id :: id in ids <==> id in was && was[id].deadline <= now)
    && (forall i, j :: 0 <= i < j < |ids| ==>
          ids[i] in was && ids[j] in was && was[ids[i]].deadline <= was[ids[j]].deadline &&
          (was[ids[i]].deadline == was[ids[j]].deadline ==> ids[i] < ids[j]))
  }

  /** `due` are the firings of `ids`, and `timers` what is left: one-shots are gone, periodic timers have moved on. */
  ghost predicate FiredExactly(was: map<nat, TimerEntry>, now: int, ids: seq<nat>, due: seq<Firing>,
                               timers: map<nat, TimerEntry>) {
    && |due| == |ids|
    && (forall i :: 0 <= i < |ids| ==> ids[i] in was && due[i] == Firing(ids[i], was[ids[i]].callback))
    && (forall id :: id in timers <==> id in was && (id in ids ==> was[id].repeating))
    && (forall id :: id in timers ==> if id in ids then MovedOn(was[id], now, timers[id]) else timers[id] == was[id])
    && (forall id :: id in timers ==> timers[id].deadline > now)
  }

  lemma RearmMovesOn(e: TimerEntry, now: int)
    requires e.interval > 0 && e.deadline <= now
    ensures MovedOn(e, now, Rearm(e, now))
  {
    var k := (now - e.deadline) / e.interval + 1;
    QuotientBounds(now - e.deadline, e.interval);
    assert Tick(e, k) == Rearm(e, now).deadline && Tick(e, k - 1) <= now < Tick(e, k);
  }

  /** What the drain's critical section does to the timers is what a drain is for. */
  lemma DrainIsExact(c: Core, ids: seq<nat>, now: int)
    requires WellFormed(c) && IsDueList(c.timers, now, ids)
    ensures ListsDue(c.timers, now, ids)
    ensures FiredExactly(c.timers, now, ids, Firings(c.timers, ids), DrainSection(c, ids, now).timers)
  {
    var after := DrainSection(c, ids, now).timers;
    forall id ensures id in ids <==> id in c.timers && c.timers[id].deadline <= now {
      assert id in ids <==> IsDue(c.timers, now, id);
    }
    forall i | 0 <= i < |ids| ensures ids[i] in c.timers {
      assert ids[i] in ids;
    }
    forall id | id in after ensures if id in ids then MovedOn(c.timers[id], now, after[id]) else after[id] == c.timers[id] {
      if id in ids { RearmMovesOn(c.timers[id], now); }
    }
  }

  /** After a drain no live timer is due, and every fired repeating timer is armed for a later time. */
  lemma NothingStaysDue(c: Core, now: int, ids: seq<nat>)
    requires WellFormed(c) && IsDueList(c.timers, now, ids)
    ensures forall id :: !IsDue(DrainSection(c, ids, now).timers, now, id)
    ensures WellFormed(DrainSection(c, ids, now))
  {
    forall id | id in Fire(c.timers, ids, now) ensures Fire(c.timers, ids, now)[id].deadline > now {
      if id in ids { NextDeadlineIsLeast(c.timers[id].deadline, c.timers[id].interval, now, 1); }
    }
  }
}
