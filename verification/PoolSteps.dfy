/** Who may enter which stage, step by step: when a connection is lent, given up, made or waited for. */
module PoolSteps {
  import opened Common
  import opened PoolModel
  import opened PoolOwnership

  /** Actor `a.i`'s program counter after its step. */
  function Next(c: Config, s: State, a: Action): Pc
    requires a.i < |s.pcs|
  {
    Step(c, s, a).pcs[a.i]
  }

  /** A notification moves only sleepers, and only to the stage after their sleep. */
  lemma OthersOnlyWakeUp(c: Config, s: State, a: Action, j: nat)
    requires a.i < |s.pcs| && j < |s.pcs| && j != a.i
    ensures var pc' := Step(c, s, a).pcs[j];
            pc' == s.pcs[j] || (s.pcs[j] == Waiting && pc' == Woken(false)) || (s.pcs[j] == ShutdownSleep && pc' == ShutdownWait)
  {
    var r := Advance(c, s, s.pcs[a.i], a);
    OthersWake(s.pcs[a.i := r.pc], r.wake, a.pick, r.wakeShutdown, j);
  }

  lemma OthersWake(pcs: seq<Pc>, wake: Wake, pick: nat, done: bool, j: nat)
    requires j < |pcs|
    ensures var pcs' := WakeShutdown(WakeUp(pcs, wake, pick), done);
            |pcs'| == |pcs| &&
            (pcs'[j] == pcs[j] || (pcs[j] == Waiting && pcs'[j] == Woken(false)) ||
             (pcs[j] == ShutdownSleep && pcs'[j] == ShutdownWait))
  {
  }

  /** Unless it falls asleep, an actor ends up where its own transition put it. */
  lemma OwnNext(c: Config, s: State, a: Action)
    requires a.i < |s.pcs|
    ensures |Step(c, s, a).pcs| == |s.pcs|
    ensures Next(c, s, a) == Advance(c, s, s.pcs[a.i], a).pc
    ensures Step(c, s, a).p == Advance(c, s, s.pcs[a.i], a).pool
  {
    var r := Advance(c, s, s.pcs[a.i], a);
    OthersWake(s.pcs[a.i := r.pc], r.wake, a.pick, r.wakeShutdown, a.i);
    SleepersNotifyNobody(c, s, s.pcs[a.i], a);
  }

  lemma SleepersNotifyNobody(c: Config, s: State, pc: Pc, a: Action)
    ensures var r := Advance(c, s, pc, a);
            r.pc.Waiting? || r.pc.ShutdownSleep? ==> r.wake == Nobody && !r.wakeShutdown
  {
  }

  // ---------- Lending ----------

  /**
   A connection is about to be lent only if it was just made, or if it was looked at, neither of its times had run out
   and it answered the ping.  The last look before lending finds the pool open.
   */
  lemma LentOnlyIfSound(c: Config, s: State, a: Action)
    requires a.i < |s.pcs|
    ensures var pc, pc', p, p' := s.pcs[a.i], Next(c, s, a), s.p, Step(c, s, a).p;
            && (pc'.Deciding? ==>
                  (pc == Created(pc'.e) && p' == p.(created := p.created + 1)) ||
                  (pc == Checking(pc'.e) && p' == p && a.ok
                   && (c.maxLifetime < 0 || a.now - pc'.e.createdAt < c.maxLifetime)
                   && (c.idleTimeout < 0 || a.now - pc'.e.lastUsedAt < c.idleTimeout)))
            && (pc'.Borrowed? ==>
                  pc == Deciding(pc'.e) && !p.shuttingDown && p' == p.(acquired := p.acquired + 1))
  {
    hide Step, Sweep;
    OwnNext(c, s, a);
  }

  /**
   A connection is given up only if a time has run out, it did not answer, or the pool is shutting down; a borrower
   whose connection was no good goes on looking, one stopped by a shutdown does not.
   */
  lemma GivenUpOnlyForCause(c: Config, s: State, a: Action)
    requires a.i < |s.pcs|
    ensures var pc, pc', p, p' := s.pcs[a.i], Next(c, s, a), s.p, Step(c, s, a).p;
            && (pc'.Retiring? ==> p' == p)
            && (pc'.Retiring? && pc'.again ==>
                  pc == Checking(pc'.e) &&
                  (!a.ok || (c.maxLifetime >= 0 && a.now - pc'.e.createdAt >= c.maxLifetime)
                   || (c.idleTimeout >= 0 && a.now - pc'.e.lastUsedAt >= c.idleTimeout)))
            && (pc'.Retiring? && !pc'.again ==> pc == Deciding(pc'.e) && p.shuttingDown)
  {
    hide Step, Sweep;
    OwnNext(c, s, a);
  }

  /** A connection given up is closed before it is uncounted. */
  lemma ClosedBeforeUncounted(c: Config, s: State, a: Action)
    requires a.i < |s.pcs| && s.pcs[a.i].Retiring?
    ensures Next(c, s, a) == Retired(s.pcs[a.i].again) && Step(c, s, a).p == s.p
  {
    hide Step, Sweep;
    OwnNext(c, s, a);
  }

  /** A look and a decision end in lending or giving up, never in forgetting the connection. */
  lemma LookedAtIsLentOrGivenUp(c: Config, s: State, a: Action)
    requires a.i < |s.pcs| && (s.pcs[a.i].Checking? || s.pcs[a.i].Deciding? || s.pcs[a.i].Created?)
    ensures var pc := s.pcs[a.i];
            Next(c, s, a) in {if pc.Deciding? then Borrowed(pc.e) else Deciding(pc.e), Retiring(pc.e, pc.Checking?)}
  {
    hide Step, Sweep;
    OwnNext(c, s, a);
  }

  /** Looking for a connection takes the one idle longest, reserves a slot, or waits when there is neither. */
  lemma LookTakesTheFront(c: Config, s: State, a: Action)
    requires a.i < |s.pcs| && s.pcs[a.i].Acquire?
    ensures var pc', p, p' := Next(c, s, a), s.p, Step(c, s, a).p;
            && (pc' == Idle <==> p.shuttingDown)
            && (pc' == Idle ==> p' == p)
            && (pc'.Checking? <==> !p.shuttingDown && p.idle != [])
            && (pc'.Checking? ==> p.idle == [pc'.e] + p'.idle && p' == p.(idle := p'.idle, active := p.active + 1))
            && (pc' == Creating <==> !p.shuttingDown && p.idle == [] && p.total < c.maxSize)
            && (pc' == Creating ==> p' == p.(total := p.total + 1, active := p.active + 1))
            && (pc' == Waiting <==> !p.shuttingDown && p.idle == [] && p.total >= c.maxSize)
            && (pc' == Waiting ==> p' == p.(waiting := p.waiting + 1))
  {
    hide Step, Sweep;
    OwnNext(c, s, a);
  }

  /** An acquire comes back with nothing only after a shutdown, a failed factory, or a time-out with nothing to take. */
  lemma AcquireGivesUpOnlyWhen(c: Config, s: State, a: Action)
    requires a.i < |s.pcs|
    ensures var pc, pc', p, p' := s.pcs[a.i], Next(c, s, a), s.p, Step(c, s, a).p;
            && (pc.Woken? && pc' == Idle <==>
                  pc == Woken(true) && !p.shuttingDown && p.idle == [] && p.total >= c.maxSize)
            && (pc.Woken? && pc' == Idle ==> p' == p.(waiting := p.waiting - 1, timeouts := p.timeouts + 1))
            && (pc.Woken? && pc' != Idle ==> pc' in {Waiting, Acquire(true)} && p'.timeouts == p.timeouts)
            && (pc.Creating? ==> pc' == if a.ok then Created(Entry(s.nextId, a.now, a.now)) else CreateFailed)
            && (pc'.CreateFailed? ==> pc == Creating && !a.ok)
            && (pc.Retired? ==>
                  pc' == (if pc.again then Acquire(false) else Idle) &&
                  p' == p.(active := p.active - 1, total := p.total - 1, destroyed := p.destroyed + 1))
            && (!pc.Woken? ==> p'.timeouts == p.timeouts)
  {
    hide Step, Sweep;
    OwnNext(c, s, a);
  }

  // ---------- Giving back ----------

  /**
   A connection given back carries the time of its return and goes to the end of the idle queue, unless the pool is
   shutting down or its life time has run out by then.
   */
  lemma GivenBack(c: Config, s: State, a: Action)
    requires a.i < |s.pcs|
    ensures var pc, pc', p, p' := s.pcs[a.i], Next(c, s, a), s.p, Step(c, s, a).p;
            && (pc.Borrowed? ==>
                  p' == p && pc'.Releasing? && pc'.e == Entry(pc.e.id, pc.e.createdAt, a.now) &&
                  (pc'.expired <==> c.maxLifetime >= 0 && a.now - pc.e.createdAt >= c.maxLifetime))
            && (pc.Releasing? && (p.shuttingDown || pc.expired) ==>
                  pc' == Closing([pc.e], false) &&
                  p' == p.(active := p.active - 1, total := p.total - 1, destroyed := p.destroyed + 1))
            && (pc.Releasing? && !p.shuttingDown && !pc.expired ==>
                  pc' == Idle && p' == p.(active := p.active - 1, idle := p.idle + [pc.e]))
            && (pc'.Releasing? ==> pc.Borrowed?)
  {
    hide Step, Sweep;
    OwnNext(c, s, a);
  }

  // ---------- Cleaning, warming up and shutting down ----------

  /** A pass of the cleaner takes only what has run out of a time, and leaves none of it that it could have taken. */
  lemma CleanerTidies(c: Config, s: State, a: Action)
    requires a.i < |s.pcs| && s.pcs[a.i].Cleaning?
    ensures var pc', p, p' := Next(c, s, a), s.p, Step(c, s, a).p;
            var stale := if pc'.Closing? then pc'.es else [];
            && Tidied(c, p.idle, s.pcs[a.i].now, p'.idle, stale, p'.total)
            && p' == p.(idle := p'.idle, total := p.total - |stale|, destroyed := p.destroyed + |stale|)
            && pc' == if stale == [] then Idle else Closing(stale, false)
  {
    hide Step, Sweep, Tidied;
    OwnNext(c, s, a);
    var (kept, stale) := Sweep(c, s.p.idle, s.p.total - c.minIdle, s.pcs[a.i].now);
    TidiedBySweep(c, s.p, s.pcs[a.i].now, kept, stale, s.p.total - |stale|);
  }

  /** A warm-up makes a connection only in an open pool with too few idle ones and room; a shutdown in between undoes it. */
  lemma WarmsOnlyIfNeeded(c: Config, s: State, a: Action)
    requires a.i < |s.pcs|
    ensures var pc, pc', p, p' := s.pcs[a.i], Next(c, s, a), s.p, Step(c, s, a).p;
            && (pc' == Warming <==> pc == WarmUp && !p.shuttingDown && |p.idle| < c.minIdle && p.total < c.maxSize)
            && (pc' == Warming ==> p' == p.(total := p.total + 1))
            && (pc == WarmUp && pc' != Warming ==> pc' == Idle && p' == p)
            && (pc == Warming ==> pc' == if a.ok then Warmed(Entry(s.nextId, a.now, a.now)) else WarmFailed)
            && (pc == WarmFailed ==> pc' == Idle && p' == p.(total := p.total - 1))
            && (pc.Warmed? && p.shuttingDown ==> pc' == Closing([pc.e], true) && p' == p.(total := p.total - 1))
            && (pc.Warmed? && !p.shuttingDown ==>
                  pc' == WarmUp && p' == p.(created := p.created + 1, idle := p.idle + [pc.e]))
  {
    hide Step, Sweep;
    OwnNext(c, s, a);
  }

  /** Only a shutdown sets the flag, and it goes past its wait only when nothing is in use, closing whatever is idle. */
  lemma ShutdownWaitsForBorrowers(c: Config, s: State, a: Action)
    requires a.i < |s.pcs|
    ensures var pc, pc', p, p' := s.pcs[a.i], Next(c, s, a), s.p, Step(c, s, a).p;
            && (p'.shuttingDown <==> p.shuttingDown || pc == ShutdownStart)
            && (pc == ShutdownWait && p.active != 0 ==> pc' == ShutdownSleep && p' == p)
            && (pc == ShutdownWait && p.active == 0 ==>
                  p'.idle == [] && p'.destroyed == p.destroyed + |p.idle| && p'.total == p.total - |p.idle| &&
                  pc' == if p.idle == [] then Idle else Closing(p.idle, false))
            && (pc == ShutdownSleep ==> pc' == ShutdownWait && p' == p)
  {
    hide Step, Sweep;
    OwnNext(c, s, a);
  }

  // ---------- Over every run ----------

  /** At step `j` of the run actor `i` made `e`, or found it fresh and answering; it has had `e` in hand ever since. */
  ghost predicate VettedAt(c: Config, actors: nat, run: seq<Action>, i: nat, e: Entry, j: nat) {
    && j < |run| && run[j].i == i && run[j].ok
    && (forall m {:trigger run[..m]} :: j < m <= |run| ==> HasInHand(Exec(c, Init(actors), run[..m]), i, e))
    && var before := Exec(c, Init(actors), run[..j]);
       i < |before.pcs| &&
       ((before.pcs[i] == Creating && e == Entry(before.nextId, run[j].now, run[j].now)) ||
        (before.pcs[i] == Checking(e)
         && (c.maxLifetime < 0 || run[j].now - e.createdAt < c.maxLifetime)
         && (c.idleTimeout < 0 || run[j].now - e.lastUsedAt < c.idleTimeout)))
  }

  predicate HasInHand(s: State, i: nat, e: Entry) {
    i < |s.pcs| && s.pcs[i] in {Created(e), Deciding(e), Borrowed(e)}
  }

  lemma LaterVetted(c: Config, actors: nat, run: seq<Action>, i: nat, e: Entry, j: nat)
    requires run != [] && VettedAt(c, actors, run[..|run| - 1], i, e, j)
    requires HasInHand(Exec(c, Init(actors), run), i, e)
    ensures VettedAt(c, actors, run, i, e, j)
  {
    hide Exec, HasInHand;
    var n := |run| - 1;
    assert run[..n][..j] == run[..j] && run[..|run|] == run;
    forall m | j < m <= |run| ensures HasInHand(Exec(c, Init(actors), run[..m]), i, e) {
      if m <= n { assert run[..n][..m] == run[..m]; }
    }
  }

  /** Whoever has `e` in hand after a step had it before, or has just made it or found it sound. */
  lemma HandsFill(c: Config, s: State, a: Action, i: nat, e: Entry)
    requires HasInHand(Step(c, s, a), i, e) && !HasInHand(s, i, e)
    ensures a.i == i < |s.pcs| && a.ok
    ensures (s.pcs[i] == Creating && e == Entry(s.nextId, a.now, a.now)) || (s.pcs[i] == Checking(e) && Fresh(c, e, a.now))
  {
    if a.i < |s.pcs| {
      OwnNext(c, s, a);
      if i != a.i { OthersOnlyWakeUp(c, s, a, i); } else { LentOnlyIfSound(c, s, a); }
    }
  }

  /**
   In every reachable state, a borrowed connection was made by its borrower at some step of the run, or at some step
   its borrower found it within both its times and answering; and it has been in that borrower's hands ever since.
   */
  lemma {:induction false} BorrowedConnectionsWereVetted(c: Config, actors: nat, run: seq<Action>, i: nat, e: Entry)
    requires HasInHand(Exec(c, Init(actors), run), i, e)
    ensures exists j :: VettedAt(c, actors, run, i, e, j)
  {
    if run != [] {
      var n := |run| - 1;
      var before := Exec(c, Init(actors), run[..n]);
      if HasInHand(before, i, e) {
        BorrowedConnectionsWereVetted(c, actors, run[..n], i, e);
        var j :| VettedAt(c, actors, run[..n], i, e, j);
        LaterVetted(c, actors, run, i, e, j);
      } else {
        HandsFill(c, before, run[n], i, e);
        assert run[..|run|] == run;
        assert VettedAt(c, actors, run, i, e, n);
      }
    }
  }
}
