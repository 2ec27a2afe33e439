/** What the blocking ring buffer promises in every interleaving. */
module RingTheorems {
  import opened Common
  import opened RingModel
  import opened RingWaits

  lemma PushCovered<T>(c: Config, s: State<T>, i: nat, v: T, mode: Mode, timedOut: bool, t: Tally, t': Tally)
    requires PoppersCovered(s, t) && PushersCovered(c, s, t) && |s.contents| <= c.cap
    requires i < |s.pcs| && (s.pcs[i].Pushing? || s.pcs[i].PushWoken?)
    requires Moved(t, s.pcs[i], PushOrSleep(c, s, i, v, mode, timedOut).pcs[i], t')
    ensures PoppersCovered(PushOrSleep(c, s, i, v, mode, timedOut), t')
    ensures PushersCovered(c, PushOrSleep(c, s, i, v, mode, timedOut), t')
  {
  }

  /** What a push drops and what it keeps, put together again. */
  lemma PutSplits<T>(gone: seq<T>, contents: seq<T>, cap: nat, policy: Policy, closed: bool, v: T)
    requires |contents| <= cap
    ensures var (ok, after) := Put(contents, cap, policy, closed, v);
            ok ==> |contents| <= |after| + 1 && 1 <= |after| <= |contents| + 1 && |after| <= cap &&
                   (gone + contents) + [v] == (gone + contents[..|contents| + 1 - |after|]) + after &&
                   (policy == Reject ==> gone + contents[..|contents| + 1 - |after|] == gone)
  {
  }

  lemma PushFlow<T>(c: Config, s: State<T>, i: nat, v: T, mode: Mode, timedOut: bool)
    requires Flow(c, s) && i < |s.pcs|
    ensures Flow(c, PushOrSleep(c, s, i, v, mode, timedOut))
  {
    PutSplits(s.gone, s.contents, c.cap, c.policy, s.closed, v);
  }

  lemma PushInv<T>(c: Config, s: State<T>, i: nat, v: T, mode: Mode, timedOut: bool)
    requires Inv(c, s) && i < |s.pcs| && (s.pcs[i].Pushing? || s.pcs[i].PushWoken?)
    ensures Inv(c, PushOrSleep(c, s, i, v, mode, timedOut))
  {
    var s' := PushOrSleep(c, s, i, v, mode, timedOut);
    assert s'.pcs == s.pcs[i := s'.pcs[i]];
    TallyUpdate(s.pcs, i, s'.pcs[i]);
    PushCovered(c, s, i, v, mode, timedOut, TallyOf(s.pcs), TallyOf(s'.pcs));
    PushFlow(c, s, i, v, mode, timedOut);
  }

  lemma PopCovered<T>(c: Config, s: State<T>, i: nat, mode: Mode, timedOut: bool, t: Tally, t': Tally)
    requires PoppersCovered(s, t) && PushersCovered(c, s, t) && |s.contents| <= c.cap
    requires i < |s.pcs| && (s.pcs[i].Popping? || s.pcs[i].PopWoken?)
    requires Moved(t, s.pcs[i], PopOrSleep(s, i, mode, timedOut).pcs[i], t')
    ensures PoppersCovered(PopOrSleep(s, i, mode, timedOut), t')
    ensures PushersCovered(c, PopOrSleep(s, i, mode, timedOut), t')
  {
  }

  lemma PopFlow<T>(c: Config, s: State<T>, i: nat, mode: Mode, timedOut: bool)
    requires Flow(c, s) && i < |s.pcs|
    ensures Flow(c, PopOrSleep(s, i, mode, timedOut))
  {
    if s.contents != [] {
      assert s.gone + s.contents == (s.gone + [s.contents[0]]) + s.contents[1..];
    }
  }

  lemma PopInv<T>(c: Config, s: State<T>, i: nat, mode: Mode, timedOut: bool)
    requires Inv(c, s) && i < |s.pcs| && (s.pcs[i].Popping? || s.pcs[i].PopWoken?)
    ensures Inv(c, PopOrSleep(s, i, mode, timedOut))
  {
    var s' := PopOrSleep(s, i, mode, timedOut);
    assert s'.pcs == s.pcs[i := s'.pcs[i]];
    TallyUpdate(s.pcs, i, s'.pcs[i]);
    PopCovered(c, s, i, mode, timedOut, TallyOf(s.pcs), TallyOf(s'.pcs));
    PopFlow(c, s, i, mode, timedOut);
  }

  lemma NotifyInv<T>(c: Config, s: State<T>, i: nat, pick: nat)
    requires Inv(c, s) && i < |s.pcs| && (s.pcs[i].NotifyEmpty? || s.pcs[i].NotifyFull?)
    ensures Inv(c, Step(c, s, Action(i, Call.Close, false, pick)))
  {
    var idle := Idle(if s.pcs[i].NotifyEmpty? then Pushed(true) else Popped(Some(s.pcs[i].r)));
    TallyUpdate(s.pcs, i, idle);
    if s.pcs[i].NotifyEmpty? {
      TallyWakeEmpty(s.pcs[i := idle], pick);
    } else {
      TallyWakeFull(s.pcs[i := idle], pick);
    }
  }

  lemma NotifyAllInv<T>(c: Config, s: State<T>, a: Action<T>)
    requires Inv(c, s) && a.i < |s.pcs|
    requires s.pcs[a.i].CloseNotifyEmpty? || s.pcs[a.i].CloseNotifyFull? || s.pcs[a.i].ClearNotify?
    ensures Inv(c, Step(c, s, a))
  {
    var next := if s.pcs[a.i].CloseNotifyEmpty? then CloseNotifyFull else Idle(Nothing);
    TallyUpdate(s.pcs, a.i, next);
    if s.pcs[a.i].CloseNotifyEmpty? {
      TallyWakeAllEmpty(s.pcs[a.i := next]);
    } else {
      TallyWakeAllFull(s.pcs[a.i := next]);
    }
  }

  lemma OwnWakeInv<T>(c: Config, s: State<T>, a: Action<T>)
    requires Inv(c, s) && a.i < |s.pcs| && (s.pcs[a.i].PushAsleep? || s.pcs[a.i].PopAsleep?)
    ensures Inv(c, Step(c, s, a))
  {
    TallyUpdate(s.pcs, a.i, Step(c, s, a).pcs[a.i]);
  }

  lemma BeginInv<T>(c: Config, s: State<T>, i: nat, call: Call<T>)
    requires Inv(c, s) && i < |s.pcs| && s.pcs[i].Idle?
    ensures Inv(c, Begin(s, i, call))
  {
    TallyUpdate(s.pcs, i, Begin(s, i, call).pcs[i]);
  }

  lemma StepInv<T>(c: Config, s: State<T>, a: Action<T>)
    requires Inv(c, s)
    ensures Inv(c, Step(c, s, a))
  {
    if a.i < |s.pcs| {
      match s.pcs[a.i]
      case Idle(_) => BeginInv(c, s, a.i, a.call);
      case Pushing(v, mode) => PushInv(c, s, a.i, v, mode, false);
      case PushWoken(v, mode, timedOut) => PushInv(c, s, a.i, v, mode, timedOut);
      case Popping(mode) => PopInv(c, s, a.i, mode, false);
      case PopWoken(mode, timedOut) => PopInv(c, s, a.i, mode, timedOut);
      case PushAsleep(_, _) => OwnWakeInv(c, s, a);
      case PopAsleep(_) => OwnWakeInv(c, s, a);
      case NotifyEmpty => NotifyInv(c, s, a.i, a.pick);
      case NotifyFull(_) => NotifyInv(c, s, a.i, a.pick);
      case CloseNotifyEmpty => NotifyAllInv(c, s, a);
      case CloseNotifyFull => NotifyAllInv(c, s, a);
      case ClearNotify => NotifyAllInv(c, s, a);
    }
  }

  lemma InitInv<T>(c: Config, threads: nat)
    ensures Inv(c, Init<T>(threads))
  {
    CountZero(Init<T>(threads).pcs, AsleepOnEmpty);
    CountZero(Init<T>(threads).pcs, AsleepOnFull);
  }

  lemma {:induction false} ExecInv<T>(c: Config, s: State<T>, run: seq<Action<T>>)
    requires Inv(c, s)
    ensures Inv(c, Exec(c, s, run))
  {
    if run != [] {
      ExecInv(c, s, run[..|run| - 1]);
      StepInv(c, Exec(c, s, run[..|run| - 1]), run[|run| - 1]);
    }
  }

  // ---------- Main results over every run ----------

  /**
   No popper and no pusher sleeps through work, although every notification comes after the unlock: in an open
   buffer, items (free slots) are at most the woken threads and pending notifications, unless nobody sleeps.
   */
  lemma NobodySleepsThroughWork<T>(c: Config, threads: nat, run: seq<Action<T>>)
    ensures var s := Exec(c, Init(threads), run);
            && (Count(s.pcs, AsleepOnEmpty) > 0 && !s.closed ==>
                  |s.contents| <= Count(s.pcs, PopComing) + Count(s.pcs, EmptyNote))
            && (Count(s.pcs, AsleepOnFull) > 0 && !s.closed ==>
                  Count(s.pcs, ClearNote) > 0 ||
                  c.cap - |s.contents| <= Count(s.pcs, PushComing) + Count(s.pcs, FullNote))
            && (s.closed && Count(s.pcs, AsleepOnEmpty) > 0 ==> Count(s.pcs, CloseEmptyNote) > 0)
            && (s.closed && Count(s.pcs, AsleepOnFull) > 0 ==> Count(s.pcs, CloseNote) > 0)
  {
    InitInv<T>(c, threads);
    ExecInv(c, Init(threads), run);
  }

  /**
   What left the buffer and what is stored is what was accepted, in order; without overwriting and clearing,
   everything that left was popped.
   */
  lemma FifoUnderReject<T>(c: Config, threads: nat, run: seq<Action<T>>)
    ensures var s := Exec(c, Init(threads), run);
            && |s.contents| <= c.cap
            && s.accepted == s.gone + s.contents
            && (c.policy == Reject && !s.cleared ==> s.accepted == s.popped + s.contents)
  {
    InitInv<T>(c, threads);
    ExecInv(c, Init(threads), run);
  }

  lemma {:induction false} ClosedForGood<T>(c: Config, s: State<T>, run: seq<Action<T>>)
    requires s.closed
    ensures Exec(c, s, run).closed && Exec(c, s, run).accepted == s.accepted
  {
    if run != [] {
      ClosedForGood(c, s, run[..|run| - 1]);
      ClosedStep(c, Exec(c, s, run[..|run| - 1]), run[|run| - 1]);
    }
  }

  lemma ClosedStep<T>(c: Config, s: State<T>, a: Action<T>)
    requires s.closed
    ensures Step(c, s, a).closed && Step(c, s, a).accepted == s.accepted
  {
  }

  /** Nothing is accepted after close, in any continuation of any run. */
  lemma NothingAcceptedAfterClose<T>(c: Config, threads: nat, run: seq<Action<T>>, later: seq<Action<T>>)
    requires Exec(c, Init(threads), run).closed
    ensures Exec(c, Exec(c, Init(threads), run), later).accepted == Exec(c, Init(threads), run).accepted
  {
    ClosedForGood(c, Exec(c, Init(threads), run), later);
  }

  ghost predicate TimedOnly<T>(s: State<T>) {
    forall i :: 0 <= i < |s.pcs| && (s.pcs[i].PopWoken? || s.pcs[i].PushWoken?) && s.pcs[i].timedOut ==>
      s.pcs[i].mode == Timed
  }

  /** Notifications never count as time-outs. */
  lemma NotifiedNotTimedOut<T>(pcs: seq<Pc<T>>, p: Pc<T> -> bool, pick: nat, i: nat)
    requires i < |pcs|
    ensures var pc := WakeOne(pcs, p, pick)[i]; pc == pcs[i] || ((pc.PopWoken? || pc.PushWoken?) && !pc.timedOut)
    ensures var pc := WakeAll(pcs, p)[i]; pc == pcs[i] || ((pc.PopWoken? || pc.PushWoken?) && !pc.timedOut)
  {
  }

  predicate Notifies<T>(pc: Pc<T>) {
    pc.NotifyEmpty? || pc.NotifyFull? || pc.CloseNotifyEmpty? || pc.CloseNotifyFull? || pc.ClearNotify?
  }

  lemma TimedOnlyNotify<T>(c: Config, s: State<T>, a: Action<T>)
    requires TimedOnly(s) && a.i < |s.pcs| && Notifies(s.pcs[a.i])
    ensures TimedOnly(Step(c, s, a))
  {
    var s', pc := Step(c, s, a), s.pcs[a.i];
    var next := if pc.NotifyEmpty? then Idle(Pushed(true))
                else if pc.NotifyFull? then Idle(Popped(Some(pc.r)))
                else if pc.CloseNotifyEmpty? then CloseNotifyFull else Idle(Nothing);
    var p := if pc.NotifyEmpty? || pc.CloseNotifyEmpty? then AsleepOnEmpty<T> else AsleepOnFull<T>;
    var pcs := s.pcs[a.i := next];
    assert s'.pcs == WakeOne(pcs, p, a.pick) || s'.pcs == WakeAll(pcs, p);
    forall i: nat | i < |pcs| && (s'.pcs[i].PopWoken? || s'.pcs[i].PushWoken?) && s'.pcs[i].timedOut
      ensures s'.pcs[i].mode == Timed
    {
      NotifiedNotTimedOut(pcs, p, a.pick, i);
    }
  }

  /** Only thread `i` moved, and it is timed out only in a timed wait. */
  ghost predicate OneMoves<T>(s: State<T>, i: nat, s': State<T>)
    requires i < |s.pcs|
  {
    && |s'.pcs| == |s.pcs| && s'.pcs == s.pcs[i := s'.pcs[i]]
    && ((s'.pcs[i].PopWoken? || s'.pcs[i].PushWoken?) && s'.pcs[i].timedOut ==> s'.pcs[i].mode == Timed)
  }

  lemma OwnPush<T>(c: Config, s: State<T>, i: nat, v: T, mode: Mode, timedOut: bool)
    requires i < |s.pcs|
    ensures OneMoves(s, i, PushOrSleep(c, s, i, v, mode, timedOut))
  {
  }

  lemma OwnPop<T>(s: State<T>, i: nat, mode: Mode, timedOut: bool)
    requires i < |s.pcs|
    ensures OneMoves(s, i, PopOrSleep(s, i, mode, timedOut))
  {
  }

  /** A thread that does not notify moves only itself, and times out only from a timed wait. */
  lemma OwnStep<T>(c: Config, s: State<T>, a: Action<T>)
    requires a.i < |s.pcs| && !Notifies(s.pcs[a.i])
    ensures OneMoves(s, a.i, Step(c, s, a))
  {
    match s.pcs[a.i]
    case Pushing(v, mode) => OwnPush(c, s, a.i, v, mode, false);
    case PushWoken(v, mode, timedOut) => OwnPush(c, s, a.i, v, mode, timedOut);
    case Popping(mode) => OwnPop(s, a.i, mode, false);
    case PopWoken(mode, timedOut) => OwnPop(s, a.i, mode, timedOut);
    case Idle(_) =>
    case PushAsleep(_, _) =>
    case PopAsleep(_) =>
  }

  lemma TimedOnlyStep<T>(c: Config, s: State<T>, a: Action<T>)
    requires TimedOnly(s)
    ensures TimedOnly(Step(c, s, a))
  {
    if a.i < |s.pcs| {
      if Notifies(s.pcs[a.i]) {
        TimedOnlyNotify(c, s, a);
      } else {
        OwnStep(c, s, a);
      }
    }
  }

  /** Only timed waits time out, in every reachable state. */
  lemma {:induction false} OnlyTimedWaitsTimeOut<T>(c: Config, threads: nat, run: seq<Action<T>>)
    ensures TimedOnly(Exec(c, Init(threads), run))
  {
    if run != [] {
      OnlyTimedWaitsTimeOut(c, threads, run[..|run| - 1]);
      TimedOnlyStep(c, Exec(c, Init(threads), run[..|run| - 1]), run[|run| - 1]);
    }
  }

  /**
   An untimed waitPop that looks at the buffer comes back empty-handed if and only if the buffer is closed and
   drained; otherwise it takes the oldest item or goes back to sleep.
   */
  lemma WaitPopFailsOnlyWhenClosedAndDrained<T>(c: Config, threads: nat, run: seq<Action<T>>, a: Action<T>)
    requires var s := Exec(c, Init(threads), run);
             a.i < |s.pcs| && (s.pcs[a.i].Popping? || s.pcs[a.i].PopWoken?) && s.pcs[a.i].mode == Wait
    ensures var s := Exec(c, Init(threads), run); var pc := Step(c, s, a).pcs[a.i];
            && (pc == Idle(Popped(None)) <==> s.closed && s.contents == [])
            && (s.contents != [] ==> pc == NotifyFull(s.contents[0]))
            && (!s.closed && s.contents == [] ==> pc == PopAsleep(Wait))
  {
    OnlyTimedWaitsTimeOut(c, threads, run);
  }
}
