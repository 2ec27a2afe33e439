/** When a push and a pop are accepted, fail, or sleep, in each of their three forms. */
module RingSteps {
  import opened Common
  import opened RingModel
  import opened RingWaits
  import opened RingTheorems

  predicate TimedOut<T>(pc: Pc<T>) {
    (pc.PushWoken? || pc.PopWoken?) && pc.timedOut
  }

  /**
   A push that looks at the buffer fails if it is closed; if there is room, or the oldest item may go, its value is
   stored at the end; otherwise a try and a timed-out wait fail, and the others sleep.
   */
  lemma PushDecides<T>(c: Config, s: State<T>, a: Action<T>)
    requires c.cap > 0 && a.i < |s.pcs| && (s.pcs[a.i].Pushing? || s.pcs[a.i].PushWoken?)
    ensures var pc, s' := s.pcs[a.i], Step(c, s, a); var pc' := s'.pcs[a.i];
            var full := |s.contents| >= c.cap;
            && (pc' == Idle(Pushed(false)) <==>
                  s.closed || (full && c.policy == Reject && (pc.mode == Try || TimedOut(pc))))
            && (pc' == NotifyEmpty <==> !s.closed && (!full || c.policy == OverwriteOldest))
            && (pc' == PushAsleep(pc.v, pc.mode) <==>
                  !s.closed && full && c.policy == Reject && pc.mode != Try && !TimedOut(pc))
            && s'.closed == s.closed && s'.popped == s.popped && s'.cleared == s.cleared
            && if pc' == NotifyEmpty then
                 && s'.contents == (if full then s.contents[1..] else s.contents) + [pc.v]
                 && s'.accepted == s.accepted + [pc.v]
                 && s'.gone == s.gone + if full then [s.contents[0]] else []
               else s'.contents == s.contents && s'.accepted == s.accepted && s'.gone == s.gone
  {
  }

  /**
   A pop that looks at the buffer takes the oldest item if there is one, closed or not; otherwise it fails if it is a
   try, the buffer is closed, or its time is up, and sleeps if not.
   */
  lemma PopDecides<T>(c: Config, s: State<T>, a: Action<T>)
    requires a.i < |s.pcs| && (s.pcs[a.i].Popping? || s.pcs[a.i].PopWoken?)
    ensures var pc, s' := s.pcs[a.i], Step(c, s, a); var pc' := s'.pcs[a.i];
            && (pc' == Idle(Popped(None)) <==> s.contents == [] && (pc.mode == Try || s.closed || TimedOut(pc)))
            && (pc'.NotifyFull? <==> s.contents != [])
            && (pc' == PopAsleep(pc.mode) <==> s.contents == [] && pc.mode != Try && !s.closed && !TimedOut(pc))
            && s'.closed == s.closed && s'.accepted == s.accepted && s'.cleared == s.cleared
            && if s.contents != [] then
                 s.contents == [pc'.r] + s'.contents && s'.popped == s.popped + [pc'.r] && s'.gone == s.gone + [pc'.r]
               else s'.contents == [] && s'.popped == s.popped && s'.gone == s.gone
  {
  }

  /**
   An untimed waitPush that looks at the buffer fails if and only if the buffer is closed; while it is full and must
   not overwrite it goes back to sleep, and otherwise the value is accepted.
   */
  lemma WaitPushFailsOnlyWhenClosed<T>(c: Config, threads: nat, run: seq<Action<T>>, a: Action<T>)
    requires c.cap > 0
    requires var s := Exec(c, Init(threads), run);
             a.i < |s.pcs| && (s.pcs[a.i].Pushing? || s.pcs[a.i].PushWoken?) && s.pcs[a.i].mode == Wait
    ensures var s := Exec(c, Init(threads), run); var s' := Step(c, s, a); var pc, pc' := s.pcs[a.i], s'.pcs[a.i];
            && (pc' == Idle(Pushed(false)) <==> s.closed)
            && (pc' == PushAsleep(pc.v, Wait) <==> !s.closed && |s.contents| == c.cap && c.policy == Reject)
            && (pc' == NotifyEmpty <==> !s.closed && (|s.contents| < c.cap || c.policy == OverwriteOldest))
            && (pc' == NotifyEmpty ==> s'.accepted == s.accepted + [pc.v])
  {
    OnlyTimedWaitsTimeOut(c, threads, run);
    InitInv<T>(c, threads);
    ExecInv(c, Init(threads), run);
    PushDecides(c, Exec(c, Init(threads), run), a);
  }

  /** Sleeping ends by a notification, spuriously, or in a timed wait by time-out; nothing else changes. */
  lemma SleepersLookAgain<T>(c: Config, s: State<T>, a: Action<T>)
    requires a.i < |s.pcs| && (s.pcs[a.i].PushAsleep? || s.pcs[a.i].PopAsleep?)
    ensures var pc, s' := s.pcs[a.i], Step(c, s, a); var late := a.timeout && pc.mode == Timed;
            s' == s.(pcs := s.pcs[a.i := if pc.PushAsleep? then PushWoken(pc.v, pc.mode, late) else PopWoken(pc.mode, late)])
  {
  }

  /** Whoever is notified has left the wait, not timed out; everybody else stays where they are. */
  lemma NotifyMoves<T>(pcs: seq<Pc<T>>, p: Pc<T> -> bool, pick: nat, j: nat)
    requires j < |pcs|
    ensures |WakeOne(pcs, p, pick)| == |WakeAll(pcs, p)| == |pcs|
    ensures !p(pcs[j]) ==> WakeOne(pcs, p, pick)[j] == pcs[j]
    ensures WakeAll(pcs, p)[j] == if p(pcs[j]) then Woken(pcs[j], false) else pcs[j]
  {
  }

  /** A push says it succeeded only after its value was stored, and a pop hands back the very item it took. */
  lemma AnswersAreHonest<T>(c: Config, s: State<T>, a: Action<T>)
    requires a.i < |s.pcs| && (s.pcs[a.i].NotifyEmpty? || s.pcs[a.i].NotifyFull?)
    ensures var pc, s' := s.pcs[a.i], Step(c, s, a);
            && |s'.pcs| == |s.pcs| && s' == s.(pcs := s'.pcs)
            && s'.pcs[a.i] == Idle(if pc.NotifyEmpty? then Pushed(true) else Popped(Some(pc.r)))
  {
    hide WakeOne;
    NotifyMoves(s.pcs[a.i := Idle(Pushed(true))], AsleepOnEmpty, a.pick, a.i);
    if s.pcs[a.i].NotifyFull? {
      NotifyMoves(s.pcs[a.i := Idle(Popped(Some(s.pcs[a.i].r)))], AsleepOnFull, a.pick, a.i);
    }
  }

  /** Closing keeps the contents and clearing empties them; neither is undone by any step. */
  lemma OnlyCloseCloses<T>(c: Config, s: State<T>, a: Action<T>)
    requires a.i < |s.pcs|
    ensures var pc, s' := s.pcs[a.i], Step(c, s, a);
            && (s'.closed <==> s.closed || (pc.Idle? && a.call == Call.Close))
            && (s'.cleared <==> s.cleared || (pc.Idle? && a.call == Call.Clear))
            && (pc.Idle? && a.call == Call.Close ==> s' == s.(closed := true, pcs := s.pcs[a.i := CloseNotifyEmpty]))
            && (pc.Idle? && a.call == Call.Clear ==>
                  s'.contents == [] && s'.gone == s.gone + s.contents && s'.pcs == s.pcs[a.i := ClearNotify])
  {
  }

  /** After a close every sleeper has been told, first the poppers and then the pushers; after a clear, the pushers. */
  lemma EverybodyIsTold<T>(c: Config, s: State<T>, a: Action<T>, j: nat)
    requires a.i < |s.pcs| && j < |s.pcs|
    requires s.pcs[a.i].CloseNotifyEmpty? || s.pcs[a.i].CloseNotifyFull? || s.pcs[a.i].ClearNotify?
    ensures var first, s' := s.pcs[a.i].CloseNotifyEmpty?, Step(c, s, a);
            && |s'.pcs| == |s.pcs| && s' == s.(pcs := s'.pcs)
            && s'.pcs[a.i] == (if first then CloseNotifyFull else Idle(Nothing))
            && (j != a.i ==>
                  s'.pcs[j] == if first && s.pcs[j].PopAsleep? then PopWoken(s.pcs[j].mode, false)
                               else if !first && s.pcs[j].PushAsleep? then PushWoken(s.pcs[j].v, s.pcs[j].mode, false)
                               else s.pcs[j])
  {
    hide WakeAll;
    if s.pcs[a.i].CloseNotifyEmpty? {
      var pcs := s.pcs[a.i := CloseNotifyFull];
      NotifyMoves(pcs, AsleepOnEmpty, 0, a.i);
      NotifyMoves(pcs, AsleepOnEmpty, 0, j);
    } else {
      var pcs := s.pcs[a.i := Idle(Nothing)];
      NotifyMoves(pcs, AsleepOnFull, 0, a.i);
      NotifyMoves(pcs, AsleepOnFull, 0, j);
    }
  }
}
