/**
 The scheduler's data in the program's own form: the timers, and a heap that indexes them by deadline with lazily
 removed entries.  Every method is proved to do to the timers what a plain scan would do.
 */
module TimerScheduler {
  import opened Common
  import opened TimerHeap
  import opened TimerModel

  datatype Error = InvalidArgument

  function ItemOf(e: TimerEntry): HeapItem {
    HeapItem(e.deadline, e.id, e.generation)
  }

  /** The items of the heap, by timer: at most one each. */
  type Index = map<nat, HeapItem>

  ghost predicate Represents(items: multiset<HeapItem>, index: Index) {
    forall x {:trigger items[x]} :: items[x] == One(x.id in index && index[x.id] == x)
  }

  /**
   The heap agrees with the timers: every live timer has exactly one item, and it is current; every other item
   names a timer that is gone, and will never come back because its identifier was already issued.
   */
  ghost predicate Agree(index: Index, timers: map<nat, TimerEntry>, nextId: nat) {
    && (forall id :: id in index ==> index[id].id == id && id < nextId)
    && (forall id :: id in timers ==> id in index && index[id] == ItemOf(timers[id]))
  }

  class TimerScheduler {
    var heap: seq<HeapItem>
    var timers: map<nat, TimerEntry>
    var nextId: nat
    var shuttingDown: bool
    var scheduled: nat
    var cancelled: nat
    var fired: nat
    ghost var index: Index

    ghost function View(): Core
      reads this
    {
      Core(timers, nextId, shuttingDown, scheduled, cancelled, fired)
    }

    ghost predicate Valid()
      reads this
    {
      IsHeap(heap) && Represents(multiset(heap), index) && WellFormed(View()) && Agree(index, timers, nextId)
    }

    constructor ()
      ensures Valid() && View() == Core(map[], 1, false, 0, 0, 0)
    {
      heap, timers, nextId, shuttingDown := [], map[], 1, false;
      scheduled, cancelled, fired := 0, 0, 0;
      index := map[];
    }

    /** Scheduling: arguments are checked first, a deadline in the past means now, a stopped timer gives no id. */
    method AddTimer(now: int, deadline: int, interval: int, repeating: bool, callback: Option<Callback>)
      returns (r: Result<nat, Error>)
      requires Valid()
      modifies this
      ensures Valid()
      ensures r.Error? <==> callback.None? || (repeating && interval <= 0)
      ensures if r.Ok?
              then (View(), r.value) == AddSection(old(View()), now, deadline, interval, repeating, callback.value)
              else View() == old(View())
      ensures r.Ok? && old(shuttingDown) ==> r.value == 0 && View() == old(View())
      ensures r.Ok? && !old(shuttingDown) ==>
                && r.value == old(nextId) && nextId == old(nextId) + 1 && scheduled == old(scheduled) + 1
                && timers == old(timers)[r.value := TimerEntry(r.value, if now < deadline then deadline else now,
                                                               interval, repeating, 1, callback.value)]
                && View() == old(View()).(timers := timers, nextId := nextId, scheduled := scheduled)
    {
      if callback.None? {
        return Error(InvalidArgument);
      }
      if repeating && interval <= 0 {
        return Error(InvalidArgument);
      }
      var at := if deadline < now then now else deadline;
      if shuttingDown {
        return Ok(INVALID_TIMER_ID);
      }
      var id := nextId;
      nextId := nextId + 1;
      Arm(TimerEntry(id, at, interval, repeating, 1, callback.value));
      scheduled := scheduled + 1;
      return Ok(id);
    }

    /** A timer that has no item is stored, and its item pushed. */
    method Arm(e: TimerEntry)
      requires Unindexed(e.id) && INVALID_TIMER_ID < e.id < nextId && (e.repeating ==> e.interval > 0)
      modifies this`heap, this`index, this`timers
      ensures Valid() && timers == old(timers)[e.id := e]
    {
      Insert(multiset(heap), index, ItemOf(e));
      AgreeArm(index, View(), e);
      index := index[e.id := ItemOf(e)];
      timers := timers[e.id := e];
      heap := Push(heap, HeapItem(e.deadline, e.id, e.generation));
    }

    /** Cancelling removes the timer only; its heap item goes stale. */
    method Cancel(id: nat) returns (ok: bool)
      requires Valid()
      modifies this
      ensures Valid() && heap == old(heap)
      ensures (View(), ok) == CancelSection(old(View()), id)
      ensures ok <==> id != 0 && id in old(timers)
      ensures ok ==> View() == old(View()).(timers := old(timers) - {id}, cancelled := old(cancelled) + 1)
      ensures !ok ==> View() == old(View())
    {
      if id == INVALID_TIMER_ID {
        return false;
      }
      if id !in timers {
        return false;
      }
      timers := timers - {id};
      cancelled := cancelled + 1;
      return true;
    }

    method CancelAll() returns (count: nat)
      requires Valid()
      modifies this
      ensures Valid() && heap == old(heap)
      ensures (View(), count) == CancelAllSection(old(View()))
      ensures count == |old(timers)| && View() == old(View()).(timers := map[], cancelled := old(cancelled) + count)
    {
      count := |timers|;
      timers := map[];
      cancelled := cancelled + count;
    }

    method BeginShutdown()
      requires Valid()
      modifies this
      ensures Valid() && View() == ShutdownSection(old(View()))
      ensures View() == old(View()).(timers := map[], shuttingDown := true)
    {
      shuttingDown := true;
      timers := map[];
    }

    predicate IsCurrent(item: HeapItem)
      reads this
    {
      item.id in timers && timers[item.id].generation == item.generation && timers[item.id].deadline == item.deadline
    }

    /**
     Stale items leave the top of the heap; no current item ever does.  Afterwards the heap is empty only if no
     timer is live, and otherwise its top is the live timer that comes first.
     */
    method DiscardStaleHeapItems()
      requires Valid()
      modifies this`heap, this`index
      ensures Valid()
      ensures forall x :: x in multiset(old(heap)) && IsCurrent(x) ==> x in multiset(heap)
      ensures heap == [] ==> timers == map[]
      ensures heap != [] ==> IsCurrent(heap[0])
      ensures heap != [] ==> forall id :: id in timers ==> id == heap[0].id || Earlier(timers, heap[0].id, id)
    {
      while heap != [] && !IsCurrent(heap[0])
        invariant Valid()
        invariant forall x :: x in multiset(old(heap)) && IsCurrent(x) ==> x in multiset(heap)
        decreases |multiset(heap)|
      {
        assert heap[0] in multiset(heap);
        Remove(multiset(heap), index, heap[0]);
        index := index - {heap[0].id};
        heap := Pop(heap);
      }
      if heap == [] {
        NoItems(multiset(heap), index);
      } else {
        TopIsEarliest(heap, index, timers, nextId);
      }
    }

    /** The scheduler's look at the timers: the decision is the one a plain scan would make. */
    method Poll(now: int) returns (d: Decision)
      requires Valid()
      modifies this`heap, this`index
      ensures Valid() && Decides(View(), now, d)
    {
      if shuttingDown {
        return Exit;
      }
      DiscardStaleHeapItems();
      if heap == [] {
        return Sleep(None);
      }
      assert timers[heap[0].id].deadline == heap[0].deadline;
      if heap[0].deadline > now {
        return Sleep(Some(heap[0].deadline));
      }
      assert heap[0].id in timers && timers[heap[0].id].deadline <= now;
      return Drain;
    }

    /** Whether the top of the heap, stale items aside, is due; if it is not, nothing is. */
    method DueOnTop(now: int) returns (due: bool)
      requires Valid()
      modifies this`heap, this`index
      ensures Valid()
      ensures due ==> heap != [] && IsCurrent(heap[0]) && IsDue(timers, now, heap[0].id)
      ensures due ==> forall id :: id in timers ==> id == heap[0].id || Earlier(timers, heap[0].id, id)
      ensures !due ==> forall id :: !IsDue(timers, now, id)
    {
      DiscardStaleHeapItems();
      if heap == [] || heap[0].deadline > now {
        return false;
      }
      return true;
    }

    /**
     One drain: it fires exactly the timers due at `now`, each once, in (deadline, id) order, drops the one-shots
     and re-arms the repeating ones.
     */
    method DrainDue(now: int) returns (due: seq<Firing>, ghost ids: seq<nat>)
      requires Valid()
      modifies this
      ensures Valid()
      ensures IsDueList(old(timers), now, ids)
      ensures due == Firings(old(timers), ids)
      ensures View() == DrainSection(old(View()), ids, now)
      ensures ListsDue(old(timers), now, ids) && FiredExactly(old(timers), now, ids, due, timers)
      ensures View() == old(View()).(timers := timers, fired := old(fired) + |ids|)
    {
      hide Fire, Drained, InOrder, IsHeap, Represents, IsDueList, ListsDue, FiredExactly, MovedOn, Rearm;
      due, ids := [], [];
      ghost var was := timers;
      ghost var all := set id | id in was && was[id].deadline <= now;
      FireNothing(was, now);
      while heap != []
        invariant Valid() && Drained(was, now, ids) && due == Firings(was, ids)
        invariant timers == Fire(was, ids, now) && fired == old(fired) + |ids|
        invariant View() == old(View()).(timers := timers, fired := fired)
        decreases all - Members(ids)
      {
        var more := DueOnTop(now);
        if !more {
          break;
        }
        var top := heap[0].id;
        NextDue(was, now, ids, timers, top);
        FireOneMore(was, now, ids, timers, top);
        var firing := FireTop(now);
        due := due + [firing];
        assert top in all && top in Members(ids + [top]) && Members(ids) <= Members(ids + [top]);
        ids := ids + [top];
      }
      if heap == [] {
        NoItems(multiset(heap), index);
      }
      AllDrained(was, now, ids, timers);
      DrainIsExact(old(View()), ids, now);
    }

    /** Everything agrees, except that the live timer `id` has no item. */
    ghost predicate Unindexed(id: nat)
      reads this
    {
      IsHeap(heap) && Represents(multiset(heap), index) && id !in index &&
      Agree(index, timers - {id}, nextId) && WellFormed(View())
    }

    method PopTop() returns (item: HeapItem)
      requires Valid() && heap != []
      modifies this`heap, this`index
      ensures item == old(heap[0]) && Unindexed(item.id)
    {
      item := heap[0];
      assert item in multiset(heap);
      Remove(multiset(heap), index, item);
      index := index - {item.id};
      heap := Pop(heap);
    }

    /** The current item at the top fires: its timer is re-armed if it repeats, and removed otherwise. */
    method FireTop(now: int) returns (firing: Firing)
      requires Valid() && heap != [] && IsCurrent(heap[0]) && heap[0].deadline <= now
      modifies this
      ensures Valid()
      ensures var id := old(heap[0].id); var e := old(timers)[id];
              && firing == Firing(id, e.callback)
              && timers == (if e.repeating then old(timers)[id := Rearm(e, now)] else old(timers) - {id})
              && (e.repeating ==> MovedOn(e, now, timers[id]))
      ensures View() == old(View()).(timers := timers, fired := old(fired) + 1)
    {
      var item := PopTop();
      // The program checks again that the item is current, and would skip a stale one; it never is.
      if !IsCurrent(item) {
        assert false;
      }
      var entry := timers[item.id];
      if entry.repeating {
        RearmMovesOn(entry, now);
        var next := CatchUp(entry.deadline, entry.interval, now);
        Arm(entry.(deadline := next, generation := entry.generation + 1));
      } else {
        timers := timers - {item.id};
      }
      fired := fired + 1;
      firing := Firing(item.id, entry.callback);
    }

    /** A periodic timer that fell behind skips the ticks it missed. */
    static method CatchUp(deadline: int, interval: int, now: int) returns (next: int)
      requires interval > 0 && deadline <= now
      ensures next == NextDeadline(deadline, interval, now)
    {
      next := deadline + interval;
      ghost var k := 1;
      while next <= now
        invariant k >= 1 && next == deadline + k * interval && next - interval <= now
        decreases now - next
      {
        next := next + interval;
        k := k + 1;
      }
      assert (k - 1) * interval == k * interval - interval;
      NextDeadlineIs(deadline, interval, now, k);
    }
  }

  // ---------- The heap as an index ----------

  ghost function Members(ids: seq<nat>): set<nat> { set id | id in ids }

  lemma Insert(items: multiset<HeapItem>, index: Index, x: HeapItem)
    requires Represents(items, index) && x.id !in index
    ensures Represents(items + multiset{x}, index[x.id := x])
  {
    assert items[x] == 0;
  }

  lemma AgreeArm(index: Index, c: Core, e: TimerEntry)
    requires Agree(index, c.timers - {e.id}, c.nextId) && WellFormed(c)
    requires INVALID_TIMER_ID < e.id < c.nextId && (e.repeating ==> e.interval > 0)
    ensures Agree(index[e.id := ItemOf(e)], c.timers[e.id := e], c.nextId)
    ensures WellFormed(c.(timers := c.timers[e.id := e]))
  {
    assert c.timers[e.id := e] == (c.timers - {e.id})[e.id := e];
  }

  lemma Remove(items: multiset<HeapItem>, index: Index, x: HeapItem)
    requires Represents(items, index) && x in items
    ensures x.id in index && index[x.id] == x
    ensures Represents(items - multiset{x}, index - {x.id})
  {
    assert items[x] == 1;
  }

  lemma NoItems(items: multiset<HeapItem>, index: Index)
    requires Represents(items, index) && items == multiset{}
    ensures forall id :: id in index ==> index[id].id != id
  {
    assert forall id :: id in index && index[id].id == id ==> items[index[id]] == 1;
  }

  lemma TopIsEarliest(heap: seq<HeapItem>, index: Index, timers: map<nat, TimerEntry>, nextId: nat)
    requires IsHeap(heap) && heap != [] && Represents(multiset(heap), index)
    requires Agree(index, timers, nextId) && heap[0].id in timers
    requires forall id :: id in timers ==> timers[id].id == id
    ensures forall id :: id in timers ==> id == heap[0].id || Earlier(timers, heap[0].id, id)
  {
    assert heap[0] in multiset(heap);
    assert multiset(heap)[heap[0]] == One(heap[0].id in index && index[heap[0].id] == heap[0]);
    forall id | id in timers && id != heap[0].id ensures Earlier(timers, heap[0].id, id) {
      assert multiset(heap)[index[id]] == 1;
      var j :| 0 <= j < |heap| && heap[j] == index[id];
      TopIsLeast(heap, j);
    }
  }

  // ---------- The state of a drain ----------

  /** `ids` is a beginning of the list of due timers. */
  ghost predicate Drained(was: map<nat, TimerEntry>, now: int, ids: seq<nat>) {
    && InOrder(was, ids)
    && (forall id :: id in ids ==> IsDue(was, now, id))
    && (forall a, b :: a in ids && IsDue(was, now, b) && b !in ids ==> Earlier(was, a, b))
  }

  lemma FireNothing(was: map<nat, TimerEntry>, now: int)
    ensures Fire(was, [], now) == was && Drained(was, now, [])
  {
  }

  /** A live timer that is due in the middle of a drain has not fired in it, and if it is the first, it comes next. */
  lemma NextDue(was: map<nat, TimerEntry>, now: int, ids: seq<nat>, timers: map<nat, TimerEntry>, next: nat)
    requires Drained(was, now, ids) && timers == Fire(was, ids, now) && IsDue(timers, now, next)
    requires forall id :: id in was && was[id].repeating ==> was[id].interval > 0
    requires forall id :: id in timers ==> id == next || Earlier(timers, next, id)
    ensures next !in ids && IsDue(was, now, next) && timers[next] == was[next]
    ensures Drained(was, now, ids + [next])
  {
    if next in ids { NextDeadlineIsLeast(was[next].deadline, was[next].interval, now, 1); }
    forall b | IsDue(was, now, b) && b !in ids && b != next ensures Earlier(was, next, b) {
      assert b in timers;
    }
  }

  lemma FireOneMore(was: map<nat, TimerEntry>, now: int, ids: seq<nat>, timers: map<nat, TimerEntry>, next: nat)
    requires timers == Fire(was, ids, now) && next in was && next !in ids
    ensures Fire(was, ids + [next], now) ==
            if was[next].repeating then timers[next := Rearm(was[next], now)] else timers - {next}
    ensures Firings(was, ids + [next]) == Firings(was, ids) + [Firing(next, was[next].callback)]
  {
  }

  /** When no live timer is due any more, everything that was due has fired. */
  lemma AllDrained(was: map<nat, TimerEntry>, now: int, ids: seq<nat>, timers: map<nat, TimerEntry>)
    requires Drained(was, now, ids) && timers == Fire(was, ids, now)
    requires forall id :: !IsDue(timers, now, id)
    ensures IsDueList(was, now, ids)
  {
    assert forall id :: IsDue(was, now, id) && id !in ids ==> IsDue(timers, now, id);
  }
}
