/** The queue's counters, over every interleaving. */
module QueueStats {
  import opened Common
  import opened QueueModel

  /** Won an enqueue ticket, not yet counted. */
  predicate Pushing<T>(pc: Pc<T>) { pc.PushMove? || pc.PushPublish? || pc.PushCount? }

  /** Won a dequeue ticket, not yet counted. */
  predicate Popping<T>(pc: Pc<T>) { pc.PopMove? || pc.PopRelease? || pc.PopCount? }

  /** Counted as closed, not yet as failed. */
  predicate Rejecting<T>(pc: Pc<T>) { pc.PushReject? }

  /** The cursors are the counters plus the operations that won a ticket and are not counted yet. */
  ghost predicate CountersOk<T>(s: State<T>) {
    && s.q.enq == s.q.stats.pushes + Count(s.pcs, Pushing)
    && s.q.deq == s.q.stats.pops + Count(s.pcs, Popping)
    && |s.delivered| == s.q.stats.pops && |s.accepted| == s.q.enq
    && s.q.stats.closedPushes <= s.q.stats.failedPushes + Count(s.pcs, Rejecting)
  }

  /** Moving one thread moves each count by that thread's share. */
  lemma Moved<T>(s: State<T>, i: nat, pc: Pc<T>)
    requires i < |s.pcs|
    ensures Count(s.pcs[i := pc], Pushing) ==
            Count(s.pcs, Pushing) - One(Pushing(s.pcs[i])) + One(Pushing(pc))
    ensures Count(s.pcs[i := pc], Popping) ==
            Count(s.pcs, Popping) - One(Popping(s.pcs[i])) + One(Popping(pc))
    ensures Count(s.pcs[i := pc], Rejecting) ==
            Count(s.pcs, Rejecting) - One(Rejecting(s.pcs[i])) + One(Rejecting(pc))
  {
    CountUpdate(s.pcs, i, pc, Pushing);
    CountUpdate(s.pcs, i, pc, Popping);
    CountUpdate(s.pcs, i, pc, Rejecting);
  }

  lemma PushCounters<T>(s: State<T>, i: nat, spurious: bool)
    requires CountersOk(s) && i < |s.pcs| && |s.q.cells| > 0 && IsPush(s.pcs[i])
    ensures CountersOk(PushStep(s, i, spurious))
  {
    var s' := PushStep(s, i, spurious);
    Moved(s, i, s'.pcs[i]);
    assert s'.pcs == s.pcs[i := s'.pcs[i]];
  }

  lemma PopCounters<T>(s: State<T>, i: nat, spurious: bool)
    requires CountersOk(s) && i < |s.pcs| && |s.q.cells| > 0 && !IsPush(s.pcs[i]) && !s.pcs[i].Idle?
    ensures CountersOk(PopStep(s, i, spurious))
  {
    var pc := PopStep(s, i, spurious).pcs[i];
    Moved(s, i, pc);
    PopTouches(s, i, spurious);
  }

  /** What one step of a pop can change. */
  lemma PopTouches<T>(s: State<T>, i: nat, spurious: bool)
    requires i < |s.pcs| && |s.q.cells| > 0 && !IsPush(s.pcs[i]) && !s.pcs[i].Idle?
    ensures var s' := PopStep(s, i, spurious);
            && s'.pcs == s.pcs[i := s'.pcs[i]] && s'.accepted == s.accepted && s'.q.enq == s.q.enq
            && s'.q.deq == s.q.deq + One(!Popping(s.pcs[i]) && Popping(s'.pcs[i]))
            && s'.q.stats.pops == s.q.stats.pops + One(Popping(s.pcs[i]) && !Popping(s'.pcs[i]))
            && s'.q.stats.pushes == s.q.stats.pushes && |s'.delivered| - |s.delivered| == s'.q.stats.pops - s.q.stats.pops
            && s'.q.stats.closedPushes == s.q.stats.closedPushes && s'.q.stats.failedPushes == s.q.stats.failedPushes
            && !Pushing(s'.pcs[i]) && !Rejecting(s'.pcs[i])
  {
  }

  lemma StepCounters<T>(s: State<T>, a: Action<T>)
    requires CountersOk(s)
    ensures CountersOk(Step(s, a))
  {
    if a.i >= |s.pcs| || |s.q.cells| == 0 {
    } else if s.pcs[a.i].Idle? {
      Moved(s, a.i, Begin(s, a.i, a.call).pcs[a.i]);
      assert Begin(s, a.i, a.call).pcs == s.pcs[a.i := Begin(s, a.i, a.call).pcs[a.i]];
    } else if IsPush(s.pcs[a.i]) {
      PushCounters(s, a.i, a.spurious);
    } else {
      PopCounters(s, a.i, a.spurious);
    }
  }

  /**
   At every step of every run of any number of threads: enqueue tickets handed out are the pushes counted plus those
   under way, the same for pops, and exactly the counted pops have returned a value.
   */
  lemma {:induction false} CountersAddUp<T>(cap: nat, threads: nat, run: seq<Action<T>>)
    ensures CountersOk(Exec(Init(cap, threads), run))
  {
    if run == [] {
      NoneUncounted(Init<T>(cap, threads));
    } else {
      CountersAddUp(cap, threads, run[..|run| - 1]);
      StepCounters(Exec(Init(cap, threads), run[..|run| - 1]), run[|run| - 1]);
    }
  }

  /** When no operation is under way, the counters alone say how many items are stored. */
  lemma CountersSaySize<T>(cap: nat, threads: nat, run: seq<Action<T>>)
    requires Quiescent(Exec(Init(cap, threads), run))
    ensures var q := Exec(Init(cap, threads), run).q; q.stats.pushes - q.stats.pops == q.enq - q.deq
  {
    CountersAddUp(cap, threads, run);
    NoneUncounted(Exec(Init(cap, threads), run));
  }

  lemma NoneUncounted<T>(s: State<T>)
    requires Quiescent(s)
    ensures Count(s.pcs, Pushing) == 0 && Count(s.pcs, Popping) == 0
  {
    CountZero(s.pcs, Pushing);
    CountZero(s.pcs, Popping);
  }
}
