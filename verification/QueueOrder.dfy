/** Real-time order: what begins after something has finished comes after it in ticket order. */
module QueueOrder {
  import opened Common
  import opened QueueModel
  import opened QueueInvariant
  import opened QueueTheorems

  /** Every ticket that thread `i` won since state `s` is at or past the cursors of `s`. */
  ghost predicate WonSince<T>(s: State<T>, s': State<T>, i: nat)
    requires i < |s'.pcs|
  {
    && s.q.enq <= s'.q.enq && s.q.deq <= s'.q.deq && |s.delivered| <= |s'.delivered|
    && (forall t: nat :: Filling(s'.pcs[i], t) ==> s.q.enq <= t)
    && (forall t: nat :: Returning(s'.pcs[i], t) ==> s.q.deq <= t)
    && (forall l :: |s.delivered| <= l < |s'.delivered| && s'.delivered[l].thread == i ==>
                      s.q.deq <= s'.delivered[l].ticket)
  }

  /** A push wins exactly the ticket at the enqueue cursor. */
  lemma StepFilling<T>(s: State<T>, a: Action<T>, t: nat)
    requires a.i < |s.pcs| && Filling(Step(s, a).pcs[a.i], t)
    ensures Filling(s.pcs[a.i], t) || t == s.q.enq
  {
    if |s.q.cells| > 0 && !s.pcs[a.i].Idle? && !IsPush(s.pcs[a.i]) { PopFillsNothing(s, a.i, a.spurious); }
  }

  lemma PopFillsNothing<T>(s: State<T>, i: nat, spurious: bool)
    requires i < |s.pcs| && |s.q.cells| > 0 && !IsPush(s.pcs[i]) && !s.pcs[i].Idle?
    ensures |PopStep(s, i, spurious).pcs| == |s.pcs| && !IsPush(PopStep(s, i, spurious).pcs[i])
  {
  }

  lemma StepWonSince<T>(s: State<T>, s': State<T>, i: nat, a: Action<T>)
    requires Inv(s') && i < |s'.pcs| && WonSince(s, s', i)
    ensures |Step(s', a).pcs| == |s'.pcs| && WonSince(s, Step(s', a), i)
  {
    StepCapacity(s', a);
    StepGrows(s', a);
    if a.i < |s'.pcs| {
      StepEffect(s', a);
      if s'.pcs[a.i].PopCount? { assert Returning(s'.pcs[a.i], s'.pcs[a.i].pos); }
      forall t: nat | Filling(Step(s', a).pcs[i], t) ensures s.q.enq <= t {
        if a.i == i { StepFilling(s', a, t); }
      }
    }
  }

  lemma {:induction false} RunWonSince<T>(s: State<T>, i: nat, later: seq<Action<T>>)
    requires Inv(s) && i < |s.pcs| && s.pcs[i].Idle?
    ensures |Exec(s, later).pcs| == |s.pcs| && WonSince(s, Exec(s, later), i)
  {
    if later != [] {
      var before := later[..|later| - 1];
      RunWonSince(s, i, before);
      ExecInv(s, before);
      StepWonSince(s, Exec(s, before), i, later[|later| - 1]);
    }
  }

  /**
   A pop that begins after another one has returned takes a later ticket: whatever a thread that is idle now is handed
   from now on was accepted after everything delivered so far.
   */
  lemma LaterPopsTakeLaterTickets<T>(cap: nat, threads: nat, run: seq<Action<T>>, later: seq<Action<T>>, i: nat,
                                     k: nat, l: nat)
    requires cap >= 2
    requires var s := Exec(Init(cap, threads), run); i < |s.pcs| && s.pcs[i].Idle? && k < |s.delivered| <= l
    requires var s' := Exec(Exec(Init(cap, threads), run), later); l < |s'.delivered| && s'.delivered[l].thread == i
    ensures Exec(Init(cap, threads), run).delivered[k].ticket <
            Exec(Exec(Init(cap, threads), run), later).delivered[l].ticket
  {
    HandOverRun(cap, threads, run);
    RunWonSince(Exec(Init(cap, threads), run), i, later);
  }

  /**
   A push that begins after others have won their tickets wins a later one: the value of a thread that is idle now
   comes, in the order of acceptance, after everything accepted so far.
   */
  lemma LaterPushesWinLaterTickets<T>(cap: nat, threads: nat, run: seq<Action<T>>, later: seq<Action<T>>, i: nat, t: nat)
    requires cap >= 2
    requires var s := Exec(Init(cap, threads), run); i < |s.pcs| && s.pcs[i].Idle?
    requires var s' := Exec(Exec(Init(cap, threads), run), later); i < |s'.pcs| && Filling(s'.pcs[i], t)
    ensures |Exec(Init(cap, threads), run).accepted| <= t
  {
    HandOverRun(cap, threads, run);
    RunWonSince(Exec(Init(cap, threads), run), i, later);
  }
}
