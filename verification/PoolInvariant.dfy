/** The pool's accounting, and that no wake-up is lost, after every step of every interleaving. */
module PoolInvariant {
  import opened Common
  import opened PoolModel

  // ---------- Counting actors ----------

  predicate Holding(pc: Pc) {
    pc.Creating? || pc.Created? || pc.CreateFailed? || pc.Checking? || pc.Deciding? || pc.Retiring? || pc.Retired? ||
    pc.Borrowed? || pc.Releasing?
  }

  predicate Reserving(pc: Pc) { pc.Warming? || pc.WarmFailed? || pc.Warmed? }

  predicate StillCreating(pc: Pc) { pc.Creating? || pc.Created? || pc.CreateFailed? }

  predicate InWait(pc: Pc) { pc.Waiting? || pc.Woken? }

  predicate Asleep(pc: Pc) { pc.Waiting? }

  /** Woken borrowers that have not re-checked the pool yet. */
  predicate Coming(pc: Pc) { pc.Woken? || (pc.Acquire? && pc.woken) }

  predicate ShutdownAsleep(pc: Pc) { pc.ShutdownSleep? }

  predicate InShutdown(pc: Pc) { pc.ShutdownWait? || pc.ShutdownSleep? }

  datatype Tally = Tally(holding: nat, reserving: nat, creating: nat, inWait: nat,
                         asleep: nat, coming: nat, shutdownAsleep: nat, inShutdown: nat)

  function TallyOf(pcs: seq<Pc>): Tally {
    Tally(Count(pcs, Holding), Count(pcs, Reserving), Count(pcs, StillCreating), Count(pcs, InWait),
          Count(pcs, Asleep), Count(pcs, Coming), Count(pcs, ShutdownAsleep), Count(pcs, InShutdown))
  }

  /** `t'` is `t` with one actor moved from `a` to `b`. */
  predicate Moved(t: Tally, a: Pc, b: Pc, t': Tally) {
    t'.holding + One(Holding(a)) == t.holding + One(Holding(b)) &&
    t'.reserving + One(Reserving(a)) == t.reserving + One(Reserving(b)) &&
    t'.creating + One(StillCreating(a)) == t.creating + One(StillCreating(b)) &&
    t'.inWait + One(InWait(a)) == t.inWait + One(InWait(b)) &&
    t'.asleep + One(Asleep(a)) == t.asleep + One(Asleep(b)) &&
    t'.coming + One(Coming(a)) == t.coming + One(Coming(b)) &&
    t'.shutdownAsleep + One(ShutdownAsleep(a)) == t.shutdownAsleep + One(ShutdownAsleep(b)) &&
    t'.inShutdown + One(InShutdown(a)) == t.inShutdown + One(InShutdown(b))
  }

  lemma TallyUpdate(pcs: seq<Pc>, i: nat, x: Pc)
    requires i < |pcs|
    ensures Moved(TallyOf(pcs), pcs[i], x, TallyOf(pcs[i := x]))
  {
    CountUpdate(pcs, i, x, Holding);
    CountUpdate(pcs, i, x, Reserving);
    CountUpdate(pcs, i, x, StillCreating);
    CountUpdate(pcs, i, x, InWait);
    CountUpdate(pcs, i, x, Asleep);
    CountUpdate(pcs, i, x, Coming);
    CountUpdate(pcs, i, x, ShutdownAsleep);
    CountUpdate(pcs, i, x, InShutdown);
  }

  /** The tally after a notification on `available`. */
  predicate Notified(t: Tally, wake: Wake, t': Tally) {
    match wake
    case Nobody => t' == t
    case Somebody => t' == if t.asleep == 0 then t else t.(asleep := t.asleep - 1, coming := t.coming + 1)
    case Everybody => t' == t.(asleep := 0, coming := t.coming + t.asleep)
  }

  lemma TallyWake(pcs: seq<Pc>, wake: Wake, pick: nat)
    ensures Notified(TallyOf(pcs), wake, TallyOf(WakeUp(pcs, wake, pick)))
  {
    match wake
    case Nobody =>
    case Somebody =>
      CountZero(pcs, Asleep);
      if Sleeper(pcs, pick) < |pcs| { TallyUpdate(pcs, Sleeper(pcs, pick), Woken(false)); }
    case Everybody =>
      TallyWakeAll(pcs);
  }

  lemma {:induction false} TallyWakeAll(pcs: seq<Pc>)
    ensures Notified(TallyOf(pcs), Everybody, TallyOf(WakeUp(pcs, Everybody, 0)))
  {
    if pcs != [] {
      var k := |pcs| - 1;
      TallyWakeAll(pcs[..k]);
      assert WakeUp(pcs, Everybody, 0)[..k] == WakeUp(pcs[..k], Everybody, 0);
    }
  }

  lemma {:induction false} TallyWakeShutdown(pcs: seq<Pc>, wake: bool)
    ensures TallyOf(WakeShutdown(pcs, wake)) ==
            if wake then TallyOf(pcs).(shutdownAsleep := 0) else TallyOf(pcs)
  {
    if pcs != [] && wake {
      var k := |pcs| - 1;
      TallyWakeShutdown(pcs[..k], wake);
      assert WakeShutdown(pcs, wake)[..k] == WakeShutdown(pcs[..k], wake);
    }
  }

  // ---------- The invariant ----------

  /** The counters agree with what the actors are doing. */
  ghost predicate Accounted(c: Config, p: Pool, t: Tally) {
    && p.total == |p.idle| + p.active + t.reserving
    && p.total <= c.maxSize
    && p.active == t.holding
    && p.created - p.destroyed == |p.idle| + p.active - t.creating
    && p.waiting == t.inWait
    && t.creating <= t.holding
  }

  /** Connections an arriving borrower could have at once. */
  function Opportunities(c: Config, p: Pool): int { |p.idle| + c.maxSize - p.total }

  /** Nobody sleeps while there is more to take than woken borrowers on their way to take it. */
  ghost predicate NoLostWakeup(c: Config, p: Pool, t: Tally) {
    && (t.asleep > 0 ==> !p.shuttingDown && Opportunities(c, p) <= t.coming)
    && (t.shutdownAsleep > 0 ==> p.active > 0)
  }

  ghost predicate ShutDownForGood(p: Pool, t: Tally, finished: bool) {
    && (t.inShutdown > 0 ==> p.shuttingDown)
    && (finished ==> p.shuttingDown && p.active == 0 && p.idle == [])
    && (finished ==> p.created == p.destroyed && p.total == t.reserving)
  }

  ghost predicate InvOf(c: Config, p: Pool, t: Tally, finished: bool) {
    Accounted(c, p, t) && NoLostWakeup(c, p, t) && ShutDownForGood(p, t, finished)
  }

  ghost predicate Inv(c: Config, s: State) {
    InvOf(c, s.p, TallyOf(s.pcs), s.finished)
  }

  lemma {:induction false} SweepSizes(c: Config, idle: seq<Entry>, budget: int, now: int)
    ensures var (kept, stale) := Sweep(c, idle, budget, now);
            && |kept| + |stale| == |idle|
            && (|stale| <= budget || stale == [])
  {
    if idle != [] {
      SweepSizes(c, idle[1..], budget, now);
      SweepSizes(c, idle[1..], budget - 1, now);
    }
  }

  ghost predicate Finishes(s: State, pc: Pc) {
    s.finished || (pc.ShutdownWait? && s.p.active == 0)
  }

  /** One transition, seen through the tally only: `t1`, `t2` and `t3` are the tally as notifications take effect. */
  ghost predicate Transition(c: Config, s: State, pc: Pc, a: Action, t: Tally, t1: Tally, t2: Tally, t3: Tally) {
    && InvOf(c, s.p, t, s.finished)
    && One(Holding(pc)) <= t.holding && One(Reserving(pc)) <= t.reserving && One(StillCreating(pc)) <= t.creating
    && One(InShutdown(pc)) <= t.inShutdown
    && t1.creating <= t1.holding
    && var r := Advance(c, s, pc, a);
       Moved(t, pc, r.pc, t1) && Notified(t1, r.wake, t2) &&
       t3 == if r.wakeShutdown then t2.(shutdownAsleep := 0) else t2
  }

  lemma AdvanceAccounted(c: Config, s: State, pc: Pc, a: Action, t: Tally, t1: Tally, t2: Tally, t3: Tally)
    requires Transition(c, s, pc, a, t, t1, t2, t3)
    ensures Accounted(c, Advance(c, s, pc, a).pool, t3)
  {
    if Holding(pc) {
      HolderAccounted(c, s, pc, a, t, t1);
    } else {
      OtherAccounted(c, s, pc, a, t, t1);
    }
  }

  lemma HolderAccounted(c: Config, s: State, pc: Pc, a: Action, t: Tally, t1: Tally)
    requires Accounted(c, s.p, t) && Holding(pc) && t.holding > 0 && t1.creating <= t1.holding
    requires Moved(t, pc, Advance(c, s, pc, a).pc, t1)
    ensures Accounted(c, Advance(c, s, pc, a).pool, t1)
  {
  }

  lemma OtherAccounted(c: Config, s: State, pc: Pc, a: Action, t: Tally, t1: Tally)
    requires Accounted(c, s.p, t) && !Holding(pc) && t1.creating <= t1.holding
    requires Moved(t, pc, Advance(c, s, pc, a).pc, t1)
    ensures Accounted(c, Advance(c, s, pc, a).pool, t1)
  {
    if pc.Cleaning? { CleanerAccounted(c, s, pc, a, t, t1); }
  }

  lemma CleanerAccounted(c: Config, s: State, pc: Pc, a: Action, t: Tally, t1: Tally)
    requires Accounted(c, s.p, t) && pc.Cleaning? && t1.creating <= t1.holding
    requires Moved(t, pc, Advance(c, s, pc, a).pc, t1)
    ensures Accounted(c, Advance(c, s, pc, a).pool, t1)
  {
    SweepSizes(c, s.p.idle, s.p.total - c.minIdle, pc.now);
  }

  lemma AdvanceWakeups(c: Config, s: State, pc: Pc, a: Action, t: Tally, t1: Tally, t2: Tally, t3: Tally)
    requires Transition(c, s, pc, a, t, t1, t2, t3)
    ensures NoLostWakeup(c, Advance(c, s, pc, a).pool, t3)
  {
    if Holding(pc) {
      HolderWakeups(c, s, pc, a, t, t1, t2, t3);
    } else if pc.Cleaning? {
      CleanerWakeups(c, s, pc, a, t, t1, t2, t3);
    }
  }

  lemma HolderWakeups(c: Config, s: State, pc: Pc, a: Action, t: Tally, t1: Tally, t2: Tally, t3: Tally)
    requires Transition(c, s, pc, a, t, t1, t2, t3) && Holding(pc)
    ensures NoLostWakeup(c, Advance(c, s, pc, a).pool, t3)
  {
  }

  lemma CleanerWakeups(c: Config, s: State, pc: Pc, a: Action, t: Tally, t1: Tally, t2: Tally, t3: Tally)
    requires Transition(c, s, pc, a, t, t1, t2, t3) && pc.Cleaning?
    ensures NoLostWakeup(c, Advance(c, s, pc, a).pool, t3)
  {
    SweepSizes(c, s.p.idle, s.p.total - c.minIdle, pc.now);
  }

  lemma AdvanceShutdown(c: Config, s: State, pc: Pc, a: Action, t: Tally, t1: Tally, t2: Tally, t3: Tally)
    requires Transition(c, s, pc, a, t, t1, t2, t3)
    ensures ShutDownForGood(Advance(c, s, pc, a).pool, t3, Finishes(s, pc))
  {
    if pc.Cleaning? { SweepSizes(c, s.p.idle, s.p.total - c.minIdle, pc.now); }
  }

  lemma {:induction false} CountAtLeast(pcs: seq<Pc>, i: nat, p: Pc -> bool)
    requires i < |pcs|
    ensures One(p(pcs[i])) <= Count(pcs, p)
  {
    if p(pcs[i]) { CountZero(pcs, p); }
  }

  lemma {:induction false} CreatorsHold(pcs: seq<Pc>)
    ensures Count(pcs, StillCreating) <= Count(pcs, Holding)
  {
    if pcs != [] { CreatorsHold(pcs[..|pcs| - 1]); }
  }

  lemma StepInv(c: Config, s: State, a: Action)
    requires Inv(c, s)
    ensures Inv(c, Step(c, s, a))
  {
    if a.i < |s.pcs| {
      var pc := s.pcs[a.i];
      var r := Advance(c, s, pc, a);
      var pcs1 := s.pcs[a.i := r.pc];
      var pcs2 := WakeUp(pcs1, r.wake, a.pick);
      TallyUpdate(s.pcs, a.i, r.pc);
      TallyWake(pcs1, r.wake, a.pick);
      TallyWakeShutdown(pcs2, r.wakeShutdown);
      CountAtLeast(s.pcs, a.i, Holding);
      CountAtLeast(s.pcs, a.i, Reserving);
      CountAtLeast(s.pcs, a.i, StillCreating);
      CountAtLeast(s.pcs, a.i, InShutdown);
      CreatorsHold(pcs1);
      var t, t1, t2, t3 := TallyOf(s.pcs), TallyOf(pcs1), TallyOf(pcs2), TallyOf(Step(c, s, a).pcs);
      AdvanceAccounted(c, s, pc, a, t, t1, t2, t3);
      AdvanceWakeups(c, s, pc, a, t, t1, t2, t3);
      AdvanceShutdown(c, s, pc, a, t, t1, t2, t3);
    }
  }

  lemma {:induction false} CountNone(n: nat, p: Pc -> bool)
    requires !p(Idle)
    ensures Count(seq(n, _ => Idle), p) == 0
  {
    CountZero(seq(n, _ => Idle), p);
  }

  lemma InitInv(c: Config, actors: nat)
    ensures Inv(c, Init(actors))
  {
    CountNone(actors, Holding);
    CountNone(actors, Reserving);
    CountNone(actors, StillCreating);
    CountNone(actors, InWait);
    CountNone(actors, Asleep);
    CountNone(actors, ShutdownAsleep);
    CountNone(actors, InShutdown);
  }

  lemma {:induction false} ExecInv(c: Config, s: State, run: seq<Action>)
    requires Inv(c, s)
    ensures Inv(c, Exec(c, s, run))
  {
    if run != [] {
      ExecInv(c, s, run[..|run| - 1]);
      StepInv(c, Exec(c, s, run[..|run| - 1]), run[|run| - 1]);
    }
  }

  // ---------- Main results over every run ----------

  /** In every reachable state the counters add up, stay within bounds and never go below zero. */
  lemma CountersAddUp(c: Config, actors: nat, run: seq<Action>)
    ensures var s := Exec(c, Init(actors), run);
            && s.p.total == |s.p.idle| + s.p.active + Count(s.pcs, Reserving)
            && s.p.created - s.p.destroyed == |s.p.idle| + s.p.active - Count(s.pcs, StillCreating)
            && s.p.active == Count(s.pcs, Holding)
            && s.p.waiting == Count(s.pcs, InWait)
            && 0 <= s.p.total <= c.maxSize && 0 <= s.p.active && 0 <= s.p.waiting && s.p.destroyed <= s.p.created
  {
    InitInv(c, actors);
    ExecInv(c, Init(actors), run);
  }

  /**
   No lost wake-up: in every reachable state, if a borrower sleeps then the pool is not shutting down and everything
   it could take is covered by borrowers already woken; and a sleeping shutdown still waits for somebody.
   */
  lemma NobodySleepsThroughAnOpportunity(c: Config, actors: nat, run: seq<Action>)
    ensures var s := Exec(c, Init(actors), run);
            && (Count(s.pcs, Asleep) > 0 ==>
                  !s.p.shuttingDown && |s.p.idle| + c.maxSize - s.p.total <= Count(s.pcs, Coming))
            && (Count(s.pcs, ShutdownAsleep) > 0 ==> s.p.active > 0)
  {
    InitInv(c, actors);
    ExecInv(c, Init(actors), run);
  }

  lemma {:induction false} StillFinished(c: Config, s: State, run: seq<Action>)
    ensures s.finished ==> Exec(c, s, run).finished
    ensures s.p.shuttingDown ==> Exec(c, s, run).p.shuttingDown && Exec(c, s, run).p.acquired == s.p.acquired
  {
    if run != [] {
      StillFinished(c, s, run[..|run| - 1]);
      StepFinished(c, Exec(c, s, run[..|run| - 1]), run[|run| - 1]);
    }
  }

  lemma StepFinished(c: Config, s: State, a: Action)
    ensures s.finished ==> Step(c, s, a).finished
    ensures s.p.shuttingDown ==> Step(c, s, a).p.shuttingDown && Step(c, s, a).p.acquired == s.p.acquired
  {
  }

  /** Once a shutdown has emptied the pool it stays empty, whatever anybody does afterwards. */
  lemma ShutdownIsFinal(c: Config, actors: nat, run: seq<Action>, later: seq<Action>)
    requires Exec(c, Init(actors), run).finished
    ensures var s := Exec(c, Exec(c, Init(actors), run), later);
            && s.p.active == 0 && s.p.idle == [] && s.p.created == s.p.destroyed
            && s.p.total == Count(s.pcs, Reserving)
  {
    InitInv(c, actors);
    ExecInv(c, Init(actors), run);
    ExecInv(c, Exec(c, Init(actors), run), later);
    StillFinished(c, Exec(c, Init(actors), run), later);
  }

  /** `s'` follows `s` and nobody has come to hold a connection as a borrower in between. */
  ghost predicate NobodyBorrowed(s: State, s': State) {
    && s'.p.acquired == s.p.acquired && |s'.pcs| == |s.pcs|
    && forall i :: 0 <= i < |s'.pcs| && s'.pcs[i].Borrowed? ==> s.pcs[i] == s'.pcs[i]
  }

  lemma StepBorrows(c: Config, s: State, a: Action)
    requires s.p.shuttingDown
    ensures NobodyBorrowed(s, Step(c, s, a))
  {
    if a.i < |s.pcs| {
      var r := Advance(c, s, s.pcs[a.i], a);
      WakingLends(s.pcs[a.i := r.pc], r.wake, a.pick, r.wakeShutdown);
    }
  }

  /** A notification hands out nothing. */
  lemma WakingLends(pcs: seq<Pc>, wake: Wake, pick: nat, done: bool)
    ensures var pcs' := WakeShutdown(WakeUp(pcs, wake, pick), done);
            |pcs'| == |pcs| && forall i :: 0 <= i < |pcs| && pcs'[i].Borrowed? ==> pcs'[i] == pcs[i]
  {
  }

  lemma {:induction false} RunBorrows(c: Config, s: State, later: seq<Action>)
    requires s.p.shuttingDown
    ensures Exec(c, s, later).p.shuttingDown && NobodyBorrowed(s, Exec(c, s, later))
  {
    if later != [] {
      RunBorrows(c, s, later[..|later| - 1]);
      StepBorrows(c, Exec(c, s, later[..|later| - 1]), later[|later| - 1]);
      StepFinished(c, Exec(c, s, later[..|later| - 1]), later[|later| - 1]);
    }
  }

  /**
   No acquire decided after the flag is set hands out a connection: whoever is a borrower later was one already, of
   the same connection, and no acquire is counted.
   */
  lemma NothingAcquiredAfterShutdown(c: Config, actors: nat, run: seq<Action>, later: seq<Action>)
    requires Exec(c, Init(actors), run).p.shuttingDown
    ensures var s := Exec(c, Init(actors), run); var s' := Exec(c, s, later);
            && s'.p.acquired == s.p.acquired && |s'.pcs| == |s.pcs|
            && forall i :: 0 <= i < |s'.pcs| && s'.pcs[i].Borrowed? ==> s.pcs[i] == s'.pcs[i]
  {
    RunBorrows(c, Exec(c, Init(actors), run), later);
  }
}
