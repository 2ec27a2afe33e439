/** The ring buffer as a bounded queue with a full policy: what one push and one pop do to its contents. */
module RingModel {
  import opened Common

  datatype Policy = Reject | OverwriteOldest

  /** One push: whether it was accepted, and the contents after it. */
  function Put<T>(contents: seq<T>, cap: nat, policy: Policy, closed: bool, v: T): (bool, seq<T>) {
    if closed then (false, contents)
    else if |contents| < cap then (true, contents + [v])
    else if policy == Reject || contents == [] then (false, contents)
    else (true, contents[1..] + [v])
  }

  /** The contents after pushing all of `vs`, one by one, into an open buffer. */
  function PutAll<T>(contents: seq<T>, cap: nat, policy: Policy, vs: seq<T>): seq<T> {
    if vs == [] then contents
    else Put(PutAll(contents, cap, policy, vs[..|vs| - 1]), cap, policy, false, vs[|vs| - 1]).1
  }

  /** Under OverwriteOldest the buffer holds the newest `cap` of everything pushed, in order. */
  lemma {:induction false} OverwriteKeepsNewest<T>(cap: nat, vs: seq<T>)
    requires cap > 0
    ensures PutAll([], cap, OverwriteOldest, vs) == if |vs| <= cap then vs else vs[|vs| - cap..]
  {
    if vs != [] {
      var before := vs[..|vs| - 1];
      OverwriteKeepsNewest(cap, before);
      if |vs| <= cap {
        assert before + [vs[|vs| - 1]] == vs;
      } else if |before| == cap {
        assert before[1..] + [vs[|vs| - 1]] == vs[1..];
      } else {
        assert before[|before| - cap..][1..] + [vs[|vs| - 1]] == vs[|vs| - cap..];
      }
    }
  }

  /** Under Reject it holds the oldest `cap`. */
  lemma {:induction false} RejectKeepsOldest<T>(cap: nat, vs: seq<T>)
    ensures PutAll([], cap, Reject, vs) == if |vs| <= cap then vs else vs[..cap]
  {
    if vs != [] {
      var before := vs[..|vs| - 1];
      RejectKeepsOldest(cap, before);
      if |vs| <= cap {
        assert before + [vs[|vs| - 1]] == vs;
      } else {
        assert before[..cap] == vs[..cap];
      }
    }
  }
}
