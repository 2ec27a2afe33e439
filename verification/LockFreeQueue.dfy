/**
 The queue in the program's own form: an array of cells and two cursors, updated in place.

 Each method is one thread's code, run while every other thread is stalled at an arbitrary point of the
 transition system (`s` is any state satisfying the invariant).  The methods return, as ghosts, the run they
 performed, so that they are also proved to be paths of the transition system.
 */
module LockFreeQueue {
  import opened Common
  import opened QueueModel
  import opened QueueInvariant
  import opened QueueTheorems

  /** All of a run's actions belong to one thread. */
  ghost predicate By<T>(run: seq<Action<T>>, me: nat) {
    forall k :: 0 <= k < |run| ==> run[k].i == me
  }

  /** `run` leads from `s` to `s'`, where only thread `me` has moved and it stands at `pc`. */
  ghost predicate Path<T>(s: State<T>, run: seq<Action<T>>, s': State<T>, me: nat, pc: Pc<T>) {
    Inv(s') && s' == Exec(s, run) && By(run, me) && me < |s.pcs| && s'.pcs == s.pcs[me := pc]
  }

  /** One more atomic operation at the end of a path. */
  lemma Extend<T>(s: State<T>, run: seq<Action<T>>, s': State<T>, me: nat, pc: Pc<T>, a: Action<T>, pc': Pc<T>)
    requires Path(s, run, s', me, pc) && a.i == me && Step(s', a).pcs == s'.pcs[me := pc']
    ensures Path(s, run + [a], Step(s', a), me, pc')
  {
    assert (run + [a])[..|run + [a]| - 1] == run;
    StepInv(s', a);
    assert s.pcs[me := pc][me := pc'] == s.pcs[me := pc'];
  }

  lemma StartPath<T>(s: State<T>, me: nat)
    requires Inv(s) && me < |s.pcs|
    ensures Path(s, [], s, me, s.pcs[me])
  {
    assert s.pcs[me := s.pcs[me]] == s.pcs;
  }

  /** Whether the next slot is free, or the next item ready, does not depend on a thread that holds no ticket. */
  lemma SameSlotFree<T>(s: State<T>, s': State<T>, me: nat)
    requires me < |s.pcs| == |s'.pcs| && s'.pcs == s.pcs[me := s'.pcs[me]]
    requires |s'.q.cells| == |s.q.cells| && s'.q.enq == s.q.enq && s'.q.deq == s.q.deq
    requires forall t :: !Draining(s.pcs[me], t) && !Draining(s'.pcs[me], t)
    requires forall t :: !Filling(s.pcs[me], t) && !Filling(s'.pcs[me], t)
    ensures SlotFree(s') <==> SlotFree(s)
    ensures ItemReady(s') <==> ItemReady(s)
  {
    var t := s.q.enq - |s.q.cells|;
    assert s'.pcs[me := s.pcs[me]] == s.pcs;
    if t >= 0 && SomeDraining(s.pcs, t) { KeepDraining(s.pcs, me, s'.pcs[me], t); }
    if t >= 0 && SomeDraining(s'.pcs, t) { KeepDraining(s'.pcs, me, s.pcs[me], t); }
    if SomeFilling(s.pcs, s.q.deq) { KeepFilling(s.pcs, me, s'.pcs[me], s.q.deq); }
    if SomeFilling(s'.pcs, s.q.deq) { KeepFilling(s'.pcs, me, s.pcs[me], s.q.deq); }
  }

  datatype Error = InvalidArgument

  class LockFreeQueue<T> {
    const capacity: nat
    const buffer: array<Cell<T>>
    var enqueuePos: nat
    var dequeuePos: nat
    var closed: bool
    var stats: Stats

    ghost function View(): Shared<T>
      reads this, buffer
    {
      Shared(buffer[..], enqueuePos, dequeuePos, closed, stats)
    }

    /** The object is the shared part of `s`, a state that satisfies the invariant. */
    ghost predicate Tracks(s: State<T>)
      reads this, buffer
    {
      buffer.Length == capacity && s.q == View() && Inv(s)
    }

    constructor (capacity: nat)
      requires capacity > 0
      ensures this.capacity == capacity && fresh(buffer)
      ensures forall threads: nat :: Init<T>(capacity, threads).q == View()
      ensures forall threads: nat :: capacity >= 2 ==> Tracks(Init(capacity, threads))
    {
      this.capacity := capacity;
      buffer := new Cell<T>[capacity](_ => Cell(0, None));
      enqueuePos, dequeuePos, closed, stats := 0, 0, false, Stats(0, 0, 0, 0, 0);
      new;
      for i := 0 to capacity
        invariant forall k :: 0 <= k < i ==> buffer[k] == Cell(k, None)
        invariant forall k :: i <= k < capacity ==> buffer[k] == Cell(0, None)
        invariant View() == Shared(buffer[..], 0, 0, false, Stats(0, 0, 0, 0, 0))
      {
        buffer[i] := Cell(i, buffer[i].storage);
      }
      assert buffer[..] == seq(capacity, i requires 0 <= i => Cell(i, None));
      forall threads: nat | capacity >= 2 ensures Tracks(Init(capacity, threads)) {
        InitInv<T>(capacity, threads);
      }
    }

    /** The checked way to build a queue: capacity 0 is refused. */
    static method Create(capacity: nat) returns (r: Result<LockFreeQueue<T>, Error>)
      ensures r.Error? <==> capacity == 0
      ensures r.Ok? ==> fresh(r.value) && fresh(r.value.buffer) && r.value.capacity == capacity
      ensures r.Ok? && capacity >= 2 ==> forall threads: nat :: r.value.Tracks(Init(capacity, threads))
    {
      if capacity == 0 {
        return Error(InvalidArgument);
      }
      var q := new LockFreeQueue<T>(capacity);
      return Ok(q);
    }

    /**
     Pushing alone: it succeeds exactly when the queue is open and the next slot is free, and then the value is
     accepted under the next ticket and published.  At most `spurious` weak compare-exchanges fail for no reason.
     */
    method TryPush(value: T, spurious: nat, ghost s: State<T>, ghost me: nat)
      returns (ok: bool, ghost s': State<T>, ghost run: seq<Action<T>>)
      requires Tracks(s) && me < |s.pcs| && s.pcs[me].Idle?
      modifies this, buffer
      ensures Tracks(s') && Path(s, run, s', me, Idle(Pushed(ok)))
      ensures ok <==> !old(closed) && SlotFree(s)
      ensures s'.accepted == if ok then s.accepted + [value] else s.accepted
      ensures dequeuePos == old(dequeuePos) && closed == old(closed) && s'.delivered == s.delivered
      ensures ok ==> CellOf(View(), old(enqueuePos)) == Cell(old(enqueuePos) + 1, Some(value))
      ensures stats == if ok then old(stats).(pushes := old(stats.pushes) + 1)
                       else old(stats).(failedPushes := old(stats.failedPushes) + 1,
                                        closedPushes := old(stats.closedPushes) + One(closed))
    {
      ghost var go := Action(me, Call.TryPush(value), false);
      StartPath(s, me);
      s', run := s, [];
      Extend(s, run, s', me, s.pcs[me], go, PushCheck(value));
      s', run := Step(s', go), run + [go];
      if closed {
        s', run := RefuseClosed(value, s, s', run, me);
        return false, s', run;
      }
      Extend(s, run, s', me, PushCheck(value), go, PushLoad(value));
      s', run := Step(s', go), run + [go];
      SameSlotFree(s, s', me);
      var pos;
      ok, pos, s', run := ReserveEnqueue(value, spurious, s, s', run, me);
      if ok {
        s', run := FillAndPublish(value, pos, s, s', run, me);
      }
    }

    /** A closed queue counts the push twice and refuses it. */
    method RefuseClosed(value: T, ghost s: State<T>, ghost s0: State<T>, ghost run0: seq<Action<T>>, ghost me: nat)
      returns (ghost s': State<T>, ghost run: seq<Action<T>>)
      requires Tracks(s0) && closed && Path(s, run0, s0, me, PushCheck(value))
      modifies this
      ensures Tracks(s') && Path(s, run, s', me, Idle(Pushed(false)))
      ensures s'.accepted == s0.accepted && s'.delivered == s0.delivered
      ensures View() == old(View()).(stats := old(stats).(failedPushes := old(stats.failedPushes) + 1,
                                                          closedPushes := old(stats.closedPushes) + 1))
    {
      ghost var go := Action(me, Call.TryPush(value), false);
      s', run := s0, run0;
      Extend(s, run, s', me, PushCheck(value), go, PushClosed);
      s', run := Step(s', go), run + [go];
      stats := stats.(closedPushes := stats.closedPushes + 1);
      Extend(s, run, s', me, PushClosed, go, PushReject);
      s', run := Step(s', go), run + [go];
      s', run := RejectPush(s, s', run, me);
    }

    method RejectPush(ghost s: State<T>, ghost s0: State<T>, ghost run0: seq<Action<T>>, ghost me: nat)
      returns (ghost s': State<T>, ghost run: seq<Action<T>>)
      requires Tracks(s0) && Path(s, run0, s0, me, PushReject)
      modifies this`stats
      ensures Tracks(s') && Path(s, run, s', me, Idle(Pushed(false)))
      ensures s'.accepted == s0.accepted && s'.delivered == s0.delivered
      ensures stats == old(stats).(failedPushes := old(stats.failedPushes) + 1)
    {
      ghost var go := Action(me, Call<T>.TryPop, false);
      stats := stats.(failedPushes := stats.failedPushes + 1);
      Extend(s, run0, s0, me, PushReject, go, Idle(Pushed(false)));
      s', run := Step(s0, go), run0 + [go];
    }

    /** The winner of ticket `pos` constructs its value and publishes the cell. */
    method FillAndPublish(value: T, pos: nat, ghost s: State<T>, ghost s0: State<T>,
                          ghost run0: seq<Action<T>>, ghost me: nat)
      returns (ghost s': State<T>, ghost run: seq<Action<T>>)
      requires Tracks(s0) && Path(s, run0, s0, me, PushMove(value, pos))
      modifies this, buffer
      ensures Tracks(s') && Path(s, run, s', me, Idle(Pushed(true)))
      ensures s'.accepted == s0.accepted && s'.delivered == s0.delivered
      ensures View() == SetCell(old(View()), pos, Cell(pos + 1, Some(value)))
                        .(stats := old(stats).(pushes := old(stats.pushes) + 1))
    {
      ghost var go := Action(me, Call.TryPush(value), false);
      s', run := s0, run0;
      buffer[pos % capacity] := buffer[pos % capacity].(storage := Some(value));
      Extend(s, run, s', me, PushMove(value, pos), go, PushPublish(pos));
      s', run := Step(s', go), run + [go];
      buffer[pos % capacity] := buffer[pos % capacity].(sequence := pos + 1);
      Extend(s, run, s', me, PushPublish(pos), go, PushCount);
      s', run := Step(s', go), run + [go];
      stats := stats.(pushes := stats.pushes + 1);
      Extend(s, run, s', me, PushCount, go, Idle(Pushed(true)));
      s', run := Step(s', go), run + [go];
    }

    /** The compare-exchange loop of a push: win the ticket `pos`, or find the ring full. */
    method ReserveEnqueue(value: T, spurious: nat, ghost s: State<T>, ghost s0: State<T>,
                          ghost run0: seq<Action<T>>, ghost me: nat)
      returns (ok: bool, pos: nat, ghost s': State<T>, ghost run: seq<Action<T>>)
      requires Tracks(s0) && Path(s, run0, s0, me, PushLoad(value))
      modifies this
      ensures Tracks(s') && Path(s, run, s', me, if ok then PushMove(value, pos) else Idle(Pushed(false)))
      ensures ok <==> SlotFree(s0)
      ensures pos == old(enqueuePos) && closed == old(closed) && dequeuePos == old(dequeuePos)
      ensures s'.accepted == if ok then s0.accepted + [value] else s0.accepted
      ensures s'.delivered == s0.delivered && buffer[..] == old(buffer[..])
      ensures stats == if ok then old(stats) else old(stats).(failedPushes := old(stats.failedPushes) + 1)
    {
      ghost var go := Action(me, Call.TryPush(value), false);
      var budget := spurious;
      pos := enqueuePos;
      ghost var t := Try(pos, pos, 0);
      s', run := s0, run0;
      Extend(s, run, s', me, PushLoad(value), go, PushSeq(value, t));
      s', run := Step(s', go), run + [go];
      FreeStamp(s0);
      assert capacity > 0;
      hide Inv, SlotFree, Exec, By;
      while true
        invariant Tracks(s') && Path(s, run, s', me, PushSeq(value, t))
        invariant View() == old(View()) && pos == enqueuePos && t.pos == pos
        invariant s'.accepted == s0.accepted && s'.delivered == s0.delivered
        decreases budget
      {
        var diff := buffer[pos % capacity].sequence - pos;
        if diff == 0 {
          Extend(s, run, s', me, PushSeq(value, t), go, PushCas(value, t));
          s', run := Step(s', go), run + [go];
          var weak: bool := *;
          if weak && budget > 0 {
            ghost var slip := go.(spurious := true);
            Extend(s, run, s', me, PushCas(value, t), slip, PushSeq(value, t));
            s', run := Step(s', slip), run + [slip];
            budget := budget - 1;
          } else if enqueuePos == pos {
            enqueuePos := pos + 1;
            Extend(s, run, s', me, PushCas(value, t), go, PushMove(value, pos));
            s', run := Step(s', go), run + [go];
            return true, pos, s', run;
          } else {
            pos := enqueuePos;
          }
        } else if diff < 0 {
          Extend(s, run, s', me, PushSeq(value, t), go, PushReject);
          s', run := Step(s', go), run + [go];
          s', run := RejectPush(s, s', run, me);
          return false, pos, s', run;
        } else {
          pos := enqueuePos;
        }
      }
    }

    /**
     Popping alone: it succeeds exactly when the next item is ready, and then it returns the value accepted under
     the next dequeue ticket and frees that cell for the next round.
     */
    method TryPop(spurious: nat, ghost s: State<T>, ghost me: nat)
      returns (r: Option<T>, ghost s': State<T>, ghost run: seq<Action<T>>)
      requires Tracks(s) && me < |s.pcs| && s.pcs[me].Idle?
      modifies this, buffer
      ensures Tracks(s') && Path(s, run, s', me, Idle(Popped(r)))
      ensures r.Some? <==> ItemReady(s)
      ensures r.Some? ==> old(dequeuePos) < |s.accepted| && r.value == s.accepted[old(dequeuePos)]
      ensures s'.accepted == s.accepted && enqueuePos == old(enqueuePos) && closed == old(closed)
      ensures dequeuePos == old(dequeuePos) + One(r.Some?)
      ensures s'.delivered == if r.Some? then s.delivered + [Delivery(me, old(dequeuePos), r.value)] else s.delivered
      ensures r.Some? ==> CellOf(View(), old(dequeuePos)) == Cell(old(dequeuePos) + capacity, None)
      ensures stats == if r.Some? then old(stats).(pops := old(stats.pops) + 1)
                       else old(stats).(failedPops := old(stats.failedPops) + 1)
    {
      ghost var go := Action(me, Call<T>.TryPop, false);
      StartPath(s, me);
      s', run := s, [];
      Extend(s, run, s', me, s.pcs[me], go, PopLoad);
      s', run := Step(s', go), run + [go];
      SameSlotFree(s, s', me);
      var won, pos;
      won, pos, s', run := ReserveDequeue(spurious, s, s', run, me);
      r := None;
      if won {
        r, s', run := TakeAndRelease(pos, s, s', run, me);
      }
    }

    /** The winner of ticket `pos` moves the value out, destroys it and frees the cell. */
    method TakeAndRelease(pos: nat, ghost s: State<T>, ghost s0: State<T>, ghost run0: seq<Action<T>>, ghost me: nat)
      returns (r: Option<T>, ghost s': State<T>, ghost run: seq<Action<T>>)
      requires Tracks(s0) && Path(s, run0, s0, me, PopMove(pos))
      modifies this, buffer
      ensures r.Some? && Tracks(s') && Path(s, run, s', me, Idle(Popped(r)))
      ensures pos < |s0.accepted| && r.value == s0.accepted[pos]
      ensures s'.accepted == s0.accepted && s'.delivered == s0.delivered + [Delivery(me, pos, r.value)]
      ensures View() == SetCell(old(View()), pos, Cell(pos + capacity, None))
                        .(stats := old(stats).(pops := old(stats.pops) + 1))
    {
      r, s', run := Take(pos, s, s0, run0, me);
      s', run := ReleaseCell(pos, r.value, s, s', run, me);
    }

    /** Moves the value out of the cell of a won ticket and destroys it. */
    method Take(pos: nat, ghost s: State<T>, ghost s0: State<T>, ghost run0: seq<Action<T>>, ghost me: nat)
      returns (r: Option<T>, ghost s': State<T>, ghost run: seq<Action<T>>)
      requires Tracks(s0) && Path(s, run0, s0, me, PopMove(pos))
      modifies buffer
      ensures r.Some? && Tracks(s') && Path(s, run, s', me, PopRelease(pos, r.value))
      ensures pos < |s0.accepted| && r.value == s0.accepted[pos]
      ensures s'.accepted == s0.accepted && s'.delivered == s0.delivered
      ensures View() == SetCell(old(View()), pos, CellOf(old(View()), pos).(storage := None))
    {
      ghost var go := Action(me, Call<T>.TryPop, false);
      assert ThreadOk(s0, s0.pcs[me]);
      r := buffer[pos % capacity].storage;
      buffer[pos % capacity] := buffer[pos % capacity].(storage := None);
      Extend(s, run0, s0, me, PopMove(pos), go, PopRelease(pos, r.value));
      s', run := Step(s0, go), run0 + [go];
    }

    /** Hands the emptied cell to the next round, and counts the pop. */
    method ReleaseCell(pos: nat, ghost v: T, ghost s: State<T>, ghost s0: State<T>, ghost run0: seq<Action<T>>, ghost me: nat)
      returns (ghost s': State<T>, ghost run: seq<Action<T>>)
      requires Tracks(s0) && Path(s, run0, s0, me, PopRelease(pos, v))
      modifies this`stats, buffer
      ensures Tracks(s') && Path(s, run, s', me, Idle(Popped(Some(v))))
      ensures s'.accepted == s0.accepted && s'.delivered == s0.delivered + [Delivery(me, pos, v)]
      ensures View() == SetCell(old(View()), pos, CellOf(old(View()), pos).(sequence := pos + capacity))
                        .(stats := old(stats).(pops := old(stats.pops) + 1))
    {
      ghost var go := Action(me, Call<T>.TryPop, false);
      buffer[pos % capacity] := buffer[pos % capacity].(sequence := pos + capacity);
      Extend(s, run0, s0, me, PopRelease(pos, v), go, PopCount(pos, v));
      s', run := Step(s0, go), run0 + [go];
      stats := stats.(pops := stats.pops + 1);
      Extend(s, run, s', me, PopCount(pos, v), go, Idle(Popped(Some(v))));
      s', run := Step(s', go), run + [go];
    }

    method RejectPop(ghost s: State<T>, ghost s0: State<T>, ghost run0: seq<Action<T>>, ghost me: nat)
      returns (ghost s': State<T>, ghost run: seq<Action<T>>)
      requires Tracks(s0) && Path(s, run0, s0, me, PopReject)
      modifies this`stats
      ensures Tracks(s') && Path(s, run, s', me, Idle(Popped(None)))
      ensures s'.accepted == s0.accepted && s'.delivered == s0.delivered
      ensures stats == old(stats).(failedPops := old(stats.failedPops) + 1)
    {
      ghost var go := Action(me, Call<T>.TryPop, false);
      stats := stats.(failedPops := stats.failedPops + 1);
      Extend(s, run0, s0, me, PopReject, go, Idle(Popped(None)));
      s', run := Step(s0, go), run0 + [go];
    }

    /** The compare-exchange loop of a pop: win the ticket `pos`, or find nothing ready. */
    method ReserveDequeue(spurious: nat, ghost s: State<T>, ghost s0: State<T>,
                          ghost run0: seq<Action<T>>, ghost me: nat)
      returns (won: bool, pos: nat, ghost s': State<T>, ghost run: seq<Action<T>>)
      requires Tracks(s0) && Path(s, run0, s0, me, PopLoad)
      modifies this
      ensures Tracks(s') && Path(s, run, s', me, if won then PopMove(pos) else Idle(Popped(None)))
      ensures won <==> ItemReady(s0)
      ensures pos == old(dequeuePos) && closed == old(closed) && enqueuePos == old(enqueuePos)
      ensures dequeuePos == old(dequeuePos) + One(won)
      ensures s'.accepted == s0.accepted && s'.delivered == s0.delivered && buffer[..] == old(buffer[..])
      ensures stats == if won then old(stats) else old(stats).(failedPops := old(stats.failedPops) + 1)
    {
      ghost var go := Action(me, Call<T>.TryPop, false);
      var budget := spurious;
      pos := dequeuePos;
      ghost var t := Try(pos, pos, 0);
      s', run := s0, run0;
      Extend(s, run, s', me, PopLoad, go, PopSeq(t));
      s', run := Step(s', go), run + [go];
      ReadyStamp(s0);
      assert capacity > 0;
      hide Inv, ItemReady, Exec, By;
      while true
        invariant Tracks(s') && Path(s, run, s', me, PopSeq(t))
        invariant View() == old(View()) && pos == dequeuePos && t.pos == pos
        invariant s'.accepted == s0.accepted && s'.delivered == s0.delivered
        decreases budget
      {
        var diff := buffer[pos % capacity].sequence - (pos + 1);
        if diff == 0 {
          Extend(s, run, s', me, PopSeq(t), go, PopCas(t));
          s', run := Step(s', go), run + [go];
          var weak: bool := *;
          if weak && budget > 0 {
            ghost var slip := go.(spurious := true);
            Extend(s, run, s', me, PopCas(t), slip, PopSeq(t));
            s', run := Step(s', slip), run + [slip];
            budget := budget - 1;
          } else if dequeuePos == pos {
            dequeuePos := pos + 1;
            Extend(s, run, s', me, PopCas(t), go, PopMove(pos));
            s', run := Step(s', go), run + [go];
            return true, pos, s', run;
          } else {
            pos := dequeuePos;
          }
        } else if diff < 0 {
          Extend(s, run, s', me, PopSeq(t), go, PopReject);
          s', run := Step(s', go), run + [go];
          s', run := RejectPop(s, s', run, me);
          return false, pos, s', run;
        } else {
          pos := dequeuePos;
        }
      }
    }

    /** close() takes effect at once and for good. */
    method Close(ghost s: State<T>, ghost me: nat) returns (ghost s': State<T>, ghost run: seq<Action<T>>)
      requires Tracks(s) && me < |s.pcs| && s.pcs[me].Idle?
      modifies this`closed
      ensures closed && Tracks(s') && Path(s, run, s', me, s.pcs[me])
      ensures s'.accepted == s.accepted && s'.delivered == s.delivered
    {
      ghost var go := Action(me, Call<T>.Close, false);
      StartPath(s, me);
      Extend(s, [], s, me, s.pcs[me], go, s.pcs[me]);
      s', run := Step(s, go), [go];
      closed := true;
    }

    /** Called with no other thread in flight, approximateSize is exact. */
    method ApproximateSize(ghost s: State<T>) returns (n: nat)
      requires Tracks(s)
      ensures n == enqueuePos - dequeuePos <= capacity
    {
      var enqueued := enqueuePos;
      var dequeued := dequeuePos;
      n := ApproximateSizeOf(enqueued, dequeued, capacity);
    }

    /** A pop while no other operation is under way takes the oldest item, or finds the queue empty. */
    method PopQuietly(ghost s: State<T>, ghost me: nat) returns (r: Option<T>, ghost s': State<T>)
      requires Tracks(s) && me < |s.pcs| && Quiescent(s)
      modifies this, buffer
      ensures Tracks(s') && Quiescent(s') && |s'.pcs| == |s.pcs|
      ensures s'.accepted == s.accepted && enqueuePos == old(enqueuePos)
      ensures r.Some? <==> s.q.deq < s.q.enq
      ensures r.Some? ==> s'.q.deq == s.q.deq + 1 && s.q.deq < |s.accepted| && r.value == s.accepted[s.q.deq]
      ensures r.None? ==> s'.q.deq == s.q.deq
    {
      QuiescentReady(s);
      ghost var run;
      r, s', run := TryPop(0, s, me);
    }

    /**
     The destructor's drain: with no other thread in flight it terminates, returns every stored value in ticket
     order and leaves no live storage.
     */
    method Drain(ghost s: State<T>, ghost me: nat) returns (drained: seq<T>, ghost s': State<T>)
      requires Tracks(s) && me < |s.pcs| && Quiescent(s)
      modifies this, buffer
      ensures Tracks(s') && Quiescent(s') && dequeuePos == enqueuePos == old(enqueuePos)
      ensures drained == s.accepted[s.q.deq..]
      ensures forall k :: 0 <= k < buffer.Length ==> buffer[k].storage == None
    {
      s' := s;
      drained := [];
      var more := true;
      while more
        invariant Tracks(s') && Quiescent(s') && |s'.pcs| == |s.pcs|
        invariant s'.accepted == s.accepted && s.q.deq <= s'.q.deq && enqueuePos == old(enqueuePos)
        invariant drained == s.accepted[s.q.deq..s'.q.deq]
        invariant !more ==> s'.q.deq == s'.q.enq
        decreases enqueuePos - dequeuePos, more
      {
        var r;
        r, s' := PopQuietly(s', me);
        match r
        case None => more := false;
        case Some(x) => drained := drained + [x];
      }
      EmptyQueueIsDead(s');
    }
  }

  // ---------- With nobody else in flight the queue is an exact bounded FIFO ----------

  ghost function Contents<T>(s: State<T>): seq<T>
    requires Inv(s)
  {
    s.accepted[s.q.deq..]
  }

  lemma QuiescentReady<T>(s: State<T>)
    requires Inv(s) && Quiescent(s)
    ensures SlotFree(s) <==> |Contents(s)| < |s.q.cells|
    ensures ItemReady(s) <==> Contents(s) != []
  {
  }

  lemma EmptyQueueIsDead<T>(s: State<T>)
    requires Inv(s) && Quiescent(s) && s.q.deq == s.q.enq
    ensures forall k :: 0 <= k < |s.q.cells| ==> s.q.cells[k].storage == None
  {
    var cap := |s.q.cells|;
    forall k | 0 <= k < cap ensures s.q.cells[k].storage == None {
      var t := TicketOfCell(s.q.deq, cap, k);
      assert CellOk(s, t);
    }
  }

  /** Every cell is the cell of one of the `cap` tickets from `d` on. */
  lemma {:induction false} TicketOfCell(d: nat, cap: nat, k: nat) returns (t: nat)
    requires k < cap
    ensures d <= t < d + cap && Slot(t, cap) == k
  {
    if d == 0 {
      ModUnique(k, cap, 0, k);
      t := k;
    } else {
      t := TicketOfCell(d - 1, cap, k);
      if t == d - 1 {
        SlotNextRound(t, cap);
        t := t + cap;
      }
    }
  }

  /** One push and one pop of a bounded FIFO. */
  function FifoPush<T>(contents: seq<T>, cap: nat, closed: bool, v: T): (bool, seq<T>) {
    if closed || |contents| >= cap then (false, contents) else (true, contents + [v])
  }

  function FifoPop<T>(contents: seq<T>): (Option<T>, seq<T>) {
    if contents == [] then (None, []) else (Some(contents[0]), contents[1..])
  }

  /** With no other operation under way, the program form refines the bounded FIFO call by call. */
  method PushAlone<T>(q: LockFreeQueue<T>, v: T, spurious: nat, ghost s: State<T>, ghost me: nat)
    returns (ok: bool, ghost s': State<T>)
    requires q.Tracks(s) && me < |s.pcs| && Quiescent(s)
    modifies q, q.buffer
    ensures q.Tracks(s') && Quiescent(s') && |s'.pcs| == |s.pcs| && q.closed == old(q.closed)
    ensures (ok, Contents(s')) == FifoPush(Contents(s), q.capacity, q.closed, v)
  {
    QuiescentReady(s);
    ghost var run;
    ok, s', run := q.TryPush(v, spurious, s, me);
    assert ok ==> (s.accepted + [v])[s.q.deq..] == Contents(s) + [v];
  }

  method PopAlone<T>(q: LockFreeQueue<T>, spurious: nat, ghost s: State<T>, ghost me: nat)
    returns (r: Option<T>, ghost s': State<T>)
    requires q.Tracks(s) && me < |s.pcs| && Quiescent(s)
    modifies q, q.buffer
    ensures q.Tracks(s') && Quiescent(s') && |s'.pcs| == |s.pcs| && q.closed == old(q.closed)
    ensures (r, Contents(s')) == FifoPop(Contents(s))
  {
    QuiescentReady(s);
    ghost var run;
    r, s', run := q.TryPop(spurious, s, me);
  }
}
