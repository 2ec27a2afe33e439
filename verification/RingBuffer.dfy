/** The circular array, updated in place, and its refinement of the bounded queue. */
module RingBuffer {
  import opened Common
  import opened RingModel

  datatype Error = InvalidArgument

  datatype Stats = Stats(pushes: nat, pops: nat, failedPushes: nat, failedPops: nat, overwrites: nat, closedPushes: nat)

  /** The index `i` places after `head`, for windows no longer than the array. */
  function Wrap(i: nat, cap: nat): nat {
    if i < cap then i else i - cap
  }

  /** How many places cell `k` is after `head`. */
  function Offset(k: nat, head: nat, cap: nat): int {
    if k >= head then k - head else k + cap - head
  }

  class RingBuffer<T> {
    const capacity: nat
    const policy: Policy
    /** A cell is occupied when it is Some. */
    const buffer: array<Option<T>>
    var head: nat
    var tail: nat
    var size: nat
    var closed: bool
    var stats: Stats
    /** Everything ever accepted, and how many of these clear() removed. */
    ghost var accepted: seq<T>
    ghost var cleared: nat

    /** Items that left the buffer: popped, overwritten or cleared. */
    ghost function Removed(): nat
      reads this
    {
      stats.pops + stats.overwrites + cleared
    }

    ghost predicate Valid()
      reads this, buffer
    {
      && buffer.Length == capacity > 0
      && head < capacity && tail < capacity && size <= capacity
      && tail == Wrap(head + size, capacity)
      && stats.pushes == |accepted| == Removed() + size
      && (forall k :: 0 <= k < capacity ==>
            buffer[k] == var i := Offset(k, head, capacity);
                         if i < size then Some(accepted[Removed() + i]) else None)
    }

    /** The window read from `head`: the accepted pushes from the first one not removed. */
    ghost function Contents(): (s: seq<T>)
      requires Valid()
      reads this, buffer
      ensures |s| == size
    {
      accepted[Removed()..]
    }

    /** The window of `size` cells read from `head` holds the contents in order; no other cell is occupied. */
    lemma Window(i: nat)
      requires Valid() && i < capacity
      ensures buffer[Wrap(head + i, capacity)] == if i < size then Some(Contents()[i]) else None
    {
      assert Offset(Wrap(head + i, capacity), head, capacity) == i;
    }

    constructor (capacity: nat, policy: Policy)
      requires capacity > 0
      ensures Valid() && fresh(buffer) && Contents() == [] && !closed
      ensures this.capacity == capacity && this.policy == policy && stats == Stats(0, 0, 0, 0, 0, 0)
    {
      this.capacity, this.policy := capacity, policy;
      buffer := new Option<T>[capacity](_ => None);
      head, tail, size, closed := 0, 0, 0, false;
      stats, accepted, cleared := Stats(0, 0, 0, 0, 0, 0), [], 0;
    }

    /** The checked way to build a buffer: capacity 0 is refused. */
    static method Create(capacity: nat, policy: Policy) returns (r: Result<RingBuffer<T>, Error>)
      ensures r.Error? <==> capacity == 0
      ensures r.Ok? ==> fresh(r.value) && fresh(r.value.buffer) && r.value.Valid() && r.value.Contents() == []
      ensures r.Ok? ==> r.value.capacity == capacity && r.value.policy == policy && !r.value.closed
    {
      if capacity == 0 {
        return Error(InvalidArgument);
      }
      var b := new RingBuffer<T>(capacity, policy);
      return Ok(b);
    }

    function NextIndex(index: nat): nat
    {
      if index + 1 == capacity then 0 else index + 1
    }

    method DropHead()
      requires Valid() && size > 0
      modifies this`head, this`size, buffer
      ensures head == Wrap(old(head) + 1, capacity) && size == old(size) - 1
      ensures forall i :: 0 <= i < capacity ==> buffer[i] == if i == old(head) then None else old(buffer[i])
    {
      buffer[head] := None;
      head := NextIndex(head);
      size := size - 1;
    }

    /** One push, as the bounded queue with this policy does it; the array cells behind it follow. */
    method PushLocked(value: T) returns (pushed: bool)
      requires Valid()
      modifies this, buffer
      ensures Valid() && closed == old(closed) && cleared == old(cleared)
      ensures (pushed, Contents()) == Put(old(Contents()), capacity, policy, closed, value)
      ensures accepted == if pushed then old(accepted) + [value] else old(accepted)
      ensures stats == if closed then old(stats).(closedPushes := old(stats.closedPushes) + 1,
                                                  failedPushes := old(stats.failedPushes) + 1)
                       else if !pushed then old(stats).(failedPushes := old(stats.failedPushes) + 1)
                       else old(stats).(pushes := old(stats.pushes) + 1,
                                        overwrites := old(stats.overwrites) + One(old(size) == capacity))
    {
      if closed {
        stats := stats.(closedPushes := stats.closedPushes + 1, failedPushes := stats.failedPushes + 1);
        return false;
      }
      if size == capacity {
        if policy == Reject {
          stats := stats.(failedPushes := stats.failedPushes + 1);
          return false;
        }
        DropOldest();
      }
      Append(value);
      return true;
    }

    /** The oldest item is overwritten: it leaves, and is counted. */
    method DropOldest()
      requires Valid() && size > 0
      modifies this`head, this`size, this`stats, buffer
      ensures Valid() && size == old(size) - 1 && Contents() == old(Contents())[1..]
      ensures stats == old(stats).(overwrites := old(stats.overwrites) + 1)
    {
      DropHead();
      stats := stats.(overwrites := stats.overwrites + 1);
    }

    method Append(value: T)
      requires Valid() && size < capacity
      modifies this`tail, this`size, this`stats, this`accepted, buffer
      ensures Valid() && accepted == old(accepted) + [value] && Contents() == old(Contents()) + [value]
      ensures stats == old(stats).(pushes := old(stats.pushes) + 1)
    {
      buffer[tail] := Some(value);
      tail := NextIndex(tail);
      size := size + 1;
      stats := stats.(pushes := stats.pushes + 1);
      accepted := accepted + [value];
    }

    /** One pop takes the oldest item. */
    method PopLocked() returns (result: Option<T>)
      requires Valid() && size > 0
      modifies this`head, this`size, this`stats, buffer
      ensures Valid() && result == Some(old(Contents())[0]) && Contents() == old(Contents())[1..]
      ensures stats == old(stats).(pops := old(stats.pops) + 1)
    {
      result := buffer[head];
      DropHead();
      stats := stats.(pops := stats.pops + 1);
    }

    method TryPush(value: T) returns (pushed: bool)
      requires Valid()
      modifies this, buffer
      ensures Valid() && closed == old(closed) && cleared == old(cleared)
      ensures (pushed, Contents()) == Put(old(Contents()), capacity, policy, closed, value)
      ensures accepted == if pushed then old(accepted) + [value] else old(accepted)
      ensures stats == if closed then old(stats).(closedPushes := old(stats.closedPushes) + 1,
                                                  failedPushes := old(stats.failedPushes) + 1)
                       else if !pushed then old(stats).(failedPushes := old(stats.failedPushes) + 1)
                       else old(stats).(pushes := old(stats.pushes) + 1,
                                        overwrites := old(stats.overwrites) + One(old(size) == capacity))
    {
      pushed := PushLocked(value);
    }

    method TryPop() returns (result: Option<T>)
      requires Valid()
      modifies this, buffer
      ensures Valid() && closed == old(closed) && accepted == old(accepted)
      ensures result.None? <==> old(Contents()) == []
      ensures if result.Some? then old(Contents()) == [result.value] + Contents() else Contents() == []
      ensures stats == if result.Some? then old(stats).(pops := old(stats.pops) + 1)
                       else old(stats).(failedPops := old(stats.failedPops) + 1)
    {
      if size == 0 {
        stats := stats.(failedPops := stats.failedPops + 1);
        return None;
      }
      result := PopLocked();
    }

    method Close()
      requires Valid()
      modifies this`closed
      ensures Valid() && closed && Contents() == old(Contents())
    {
      closed := true;
    }

    /** Every item is destroyed, and both indices go back to the first cell. */
    method Clear()
      requires Valid()
      modifies this, buffer
      ensures Valid() && Contents() == [] && head == tail == 0
      ensures closed == old(closed) && accepted == old(accepted) && stats == old(stats)
      ensures forall i :: 0 <= i < capacity ==> buffer[i] == None
    {
      while size > 0
        invariant Valid() && closed == old(closed) && accepted == old(accepted) && stats == old(stats)
        decreases size
      {
        DropHead();
        cleared := cleared + 1;
      }
      head := 0;
      tail := 0;
    }
  }
}
