/**
 How many connections are really open.  The pool uncounts a connection before it closes it, so `max_size` bounds the
 counted ones only; this module says how many more can be open, and for which configurations none can.
 */
module PoolOpen {
  import opened Common
  import opened PoolModel
  import opened PoolInvariant

  /** Connections the factory made and nobody has closed. */
  function Open(s: State): int { s.nextId - s.closed }

  function Left(pc: Pc): nat { if pc.Closing? then |pc.es| else 0 }

  /** Connections that are uncounted and not closed yet. */
  function ToClose(pcs: seq<Pc>): nat {
    if pcs == [] then 0 else ToClose(pcs[..|pcs| - 1]) + Left(pcs[|pcs| - 1])
  }

  lemma {:induction false} ToCloseUpdate(pcs: seq<Pc>, i: nat, x: Pc)
    requires i < |pcs|
    ensures ToClose(pcs[i := x]) + Left(pcs[i]) == ToClose(pcs) + Left(x)
  {
    var k := |pcs| - 1;
    if i == k {
      assert pcs[i := x][..k] == pcs[..k];
    } else {
      ToCloseUpdate(pcs[..k], i, x);
      assert pcs[i := x][..k] == pcs[..k][i := x];
    }
  }

  /** Sleepers hold nothing and close nothing, so a notification changes neither count. */
  lemma {:induction false} SameWork(pcs: seq<Pc>, pcs': seq<Pc>)
    requires |pcs'| == |pcs|
    requires forall i :: 0 <= i < |pcs| ==> Left(pcs'[i]) == Left(pcs[i]) && Holds(pcs'[i]) == Holds(pcs[i])
    ensures ToClose(pcs') == ToClose(pcs) && Count(pcs', Holds) == Count(pcs, Holds)
  {
    if pcs != [] { SameWork(pcs[..|pcs| - 1], pcs'[..|pcs| - 1]); }
  }

  lemma WakingWorks(pcs: seq<Pc>, wake: Wake, pick: nat, done: bool)
    ensures var pcs' := WakeShutdown(WakeUp(pcs, wake, pick), done);
            ToClose(pcs') == ToClose(pcs) && Count(pcs', Holds) == Count(pcs, Holds)
  {
    SameWork(pcs, WakeUp(pcs, wake, pick));
    SameWork(WakeUp(pcs, wake, pick), WakeShutdown(WakeUp(pcs, wake, pick), done));
  }

  /** What a step does to the counts of connections. */
  lemma StepWork(c: Config, s: State, a: Action)
    requires a.i < |s.pcs|
    ensures var s', pc, pc' := Step(c, s, a), s.pcs[a.i], Advance(c, s, s.pcs[a.i], a).pc;
            && ToClose(s'.pcs) + Left(pc) == ToClose(s.pcs) + Left(pc')
            && Count(s'.pcs, Holds) + One(Holds(pc)) == Count(s.pcs, Holds) + One(Holds(pc'))
  {
    var r := Advance(c, s, s.pcs[a.i], a);
    ToCloseUpdate(s.pcs, a.i, r.pc);
    CountUpdate(s.pcs, a.i, r.pc, Holds);
    WakingWorks(s.pcs[a.i := r.pc], r.wake, a.pick, r.wakeShutdown);
  }

  // ---------- Every open connection is idle, in somebody's hands, or about to be closed ----------

  ghost predicate Balanced(s: State) {
    Open(s) == |s.p.idle| + Count(s.pcs, Holds) + ToClose(s.pcs)
  }

  /** One transition opens, moves or closes connections, and loses none. */
  lemma AdvanceBalanced(c: Config, s: State, pc: Pc, a: Action)
    ensures var r := Advance(c, s, pc, a);
            |r.pool.idle| + One(Holds(r.pc)) + Left(r.pc) + One(Closes(pc)) ==
            |s.p.idle| + One(Holds(pc)) + Left(pc) + One((pc.Creating? || pc.Warming?) && a.ok)
  {
    if pc.Cleaning? { SweepSizes(c, s.p.idle, s.p.total - c.minIdle, pc.now); }
  }

  lemma StepBalanced(c: Config, s: State, a: Action)
    requires Balanced(s)
    ensures Balanced(Step(c, s, a))
  {
    if a.i < |s.pcs| {
      StepWork(c, s, a);
      AdvanceBalanced(c, s, s.pcs[a.i], a);
    }
  }

  lemma {:induction false} IdleActors(pcs: seq<Pc>)
    requires forall i :: 0 <= i < |pcs| ==> pcs[i].Idle?
    ensures ToClose(pcs) == 0 && Count(pcs, Holds) == 0
  {
    if pcs != [] { IdleActors(pcs[..|pcs| - 1]); }
  }

  lemma {:induction false} RunBalanced(c: Config, actors: nat, run: seq<Action>)
    ensures Balanced(Exec(c, Init(actors), run))
  {
    if run == [] {
      IdleActors(Init(actors).pcs);
    } else {
      RunBalanced(c, actors, run[..|run| - 1]);
      StepBalanced(c, Exec(c, Init(actors), run[..|run| - 1]), run[|run| - 1]);
    }
  }

  lemma {:induction false} HoldersAreCounted(pcs: seq<Pc>)
    ensures Count(pcs, Holds) <= Count(pcs, Holding) + Count(pcs, Reserving)
  {
    if pcs != [] { HoldersAreCounted(pcs[..|pcs| - 1]); }
  }

  /**
   In every reachable state the open connections are those idle, those in an actor's hands, and those uncounted and
   about to be closed; `max_size` bounds the first two.
   */
  lemma OpenIsAccountedFor(c: Config, actors: nat, run: seq<Action>)
    ensures var s := Exec(c, Init(actors), run);
            && Open(s) == |s.p.idle| + Count(s.pcs, Holds) + ToClose(s.pcs)
            && |s.p.idle| + Count(s.pcs, Holds) <= s.p.total <= c.maxSize
  {
    RunBalanced(c, actors, run);
    CountersAddUp(c, actors, run);
    HoldersAreCounted(Exec(c, Init(actors), run).pcs);
  }

  // ---------- Configurations under which nothing is retired before a shutdown ----------

  /** No connection ever reaches its life time, and the cleaner never retires one. */
  predicate KeepsConnections(c: Config) {
    c.maxLifetime < 0 && (c.idleTimeout < 0 || c.minIdle >= c.maxSize)
  }

  ghost predicate NobodyExpires(pcs: seq<Pc>) {
    forall i :: 0 <= i < |pcs| && pcs[i].Releasing? ==> !pcs[i].expired
  }

  /** Nothing waits to be closed before a shutdown, and a shutdown only moves connections from counted to closing. */
  ghost predicate Tight(c: Config, s: State) {
    s.p.total + ToClose(s.pcs) <= c.maxSize && (!s.p.shuttingDown ==> ToClose(s.pcs) == 0) && NobodyExpires(s.pcs)
  }

  lemma {:induction false} SweepNothing(c: Config, idle: seq<Entry>, budget: int, now: int)
    requires budget <= 0 || (c.maxLifetime < 0 && c.idleTimeout < 0)
    ensures Sweep(c, idle, budget, now) == (idle, [])
  {
    if idle != [] {
      SweepNothing(c, idle[1..], budget, now);
      assert [idle[0]] + idle[1..] == idle;
    }
  }

  lemma AdvanceTight(c: Config, s: State, pc: Pc, a: Action)
    requires KeepsConnections(c) && s.p.total <= c.maxSize && (pc.Releasing? ==> !pc.expired)
    requires pc.ShutdownWait? || Left(pc) > 0 ==> s.p.shuttingDown
    ensures var r := Advance(c, s, pc, a);
            && (s.p.shuttingDown ==> r.pool.shuttingDown && r.pool.total + Left(r.pc) <= s.p.total + Left(pc))
            && (!s.p.shuttingDown ==> Left(r.pc) == 0 && r.pool.total <= c.maxSize)
            && (r.pc.Releasing? ==> !r.pc.expired)
  {
    if pc.Cleaning? {
      SweepSizes(c, s.p.idle, s.p.total - c.minIdle, pc.now);
      SweepNothing(c, s.p.idle, s.p.total - c.minIdle, pc.now);
    }
  }

  lemma {:induction false} SomethingLeft(pcs: seq<Pc>, i: nat)
    requires i < |pcs|
    ensures Left(pcs[i]) <= ToClose(pcs)
  {
    if i < |pcs| - 1 { SomethingLeft(pcs[..|pcs| - 1], i); }
  }

  lemma WakingExpires(pcs: seq<Pc>, wake: Wake, pick: nat, done: bool)
    requires NobodyExpires(pcs)
    ensures NobodyExpires(WakeShutdown(WakeUp(pcs, wake, pick), done))
  {
  }

  lemma StepTight(c: Config, s: State, a: Action)
    requires KeepsConnections(c) && Inv(c, s) && Tight(c, s)
    ensures Tight(c, Step(c, s, a))
  {
    if a.i < |s.pcs| {
      var pc := s.pcs[a.i];
      SomethingLeft(s.pcs, a.i);
      CountAtLeast(s.pcs, a.i, InShutdown);
      AdvanceTight(c, s, pc, a);
      StepWork(c, s, a);
      var r := Advance(c, s, pc, a);
      WakingExpires(s.pcs[a.i := r.pc], r.wake, a.pick, r.wakeShutdown);
    }
  }

  lemma {:induction false} RunTight(c: Config, actors: nat, run: seq<Action>)
    requires KeepsConnections(c)
    ensures Inv(c, Exec(c, Init(actors), run)) && Tight(c, Exec(c, Init(actors), run))
  {
    if run == [] {
      InitInv(c, actors);
      IdleActors(Init(actors).pcs);
    } else {
      var before := run[..|run| - 1];
      RunTight(c, actors, before);
      StepInv(c, Exec(c, Init(actors), before), run[|run| - 1]);
      StepTight(c, Exec(c, Init(actors), before), run[|run| - 1]);
    }
  }

  // ---------- Runs that open one connection too many ----------

  /** The clock does not go back. */
  ghost predicate Forward(run: seq<Action>) {
    forall k, l :: 0 <= k < l < |run| ==> run[k].now <= run[l].now
  }

  lemma {:induction false} ExecConcat(c: Config, s: State, run: seq<Action>, more: seq<Action>)
    ensures Exec(c, s, run + more) == Exec(c, Exec(c, s, run), more)
  {
    hide Step;
    if more == [] {
      assert run + more == run;
    } else {
      ExecConcat(c, s, run, more[..|more| - 1]);
      assert (run + more)[..|run + more| - 1] == run + more[..|more| - 1];
    }
  }

  lemma ExecThree(c: Config, s: State, a: Action, b: Action, d: Action)
    ensures Exec(c, s, [a, b, d]) == Step(c, Step(c, Step(c, s, a), b), d)
  {
    assert [a, b, d][..2] == [a, b] && [a, b][..1] == [a] && [a][..0] == [];
    assert Exec(c, s, [a]) == Step(c, s, a);
  }

  /** Nobody is asleep, so notifications reach nobody. */
  ghost predicate Awake(pcs: seq<Pc>) {
    forall i :: 0 <= i < |pcs| ==> !pcs[i].Waiting? && !pcs[i].ShutdownSleep?
  }

  lemma NobodyWoken(pcs: seq<Pc>, wake: Wake, pick: nat, done: bool)
    requires Awake(pcs)
    ensures WakeShutdown(WakeUp(pcs, wake, pick), done) == pcs
  {
    assert WakeUp(pcs, wake, pick) == pcs;
    assert WakeShutdown(pcs, done) == pcs;
  }

  /** A step while nobody sleeps and nobody goes to sleep. */
  lemma StepAwake(c: Config, s: State, a: Action)
    requires a.i < |s.pcs| && Awake(s.pcs)
    requires var pc := Advance(c, s, s.pcs[a.i], a).pc; !pc.Waiting? && !pc.ShutdownSleep?
    ensures var pc, r := s.pcs[a.i], Advance(c, s, s.pcs[a.i], a);
            && Step(c, s, a) == State(r.pool, s.pcs[a.i := r.pc],
                                      if (pc.Creating? || pc.Warming?) && a.ok then s.nextId + 1 else s.nextId,
                                      s.closed + One(Closes(pc)), s.retired + GivenUp(c, s.p, pc),
                                      s.finished || (pc.ShutdownWait? && s.p.active == 0))
            && Awake(s.pcs[a.i := r.pc])
  {
    var r := Advance(c, s, s.pcs[a.i], a);
    NobodyWoken(s.pcs[a.i := r.pc], r.wake, a.pick, r.wakeShutdown);
  }

  /** Actor `i` takes a step with this factory or ping answering yes, at time `now`. */
  function Act(i: nat, call: Call, now: int): Action { Action(i, call, now, true, 0) }

  /** An idle actor starts an acquire, reserves a slot and makes a connection. */
  function Make(i: nat, now: int): seq<Action> {
    [Act(i, CallAcquire, now), Act(i, CallAcquire, now), Act(i, CallAcquire, now)]
  }

  lemma Begins(c: Config, s: State, i: nat, call: Call, now: int)
    requires i < |s.pcs| && s.pcs[i].Idle? && Awake(s.pcs)
    ensures var s' := Step(c, s, Act(i, call, now));
            && s' == s.(pcs := s'.pcs) && Awake(s'.pcs)
            && (call.CallAcquire? ==> s'.pcs == s.pcs[i := Acquire(false)])
            && (call.CallCleanup? ==> s'.pcs == s.pcs[i := Cleaning(now)])
  {
    StepAwake(c, s, Act(i, call, now));
    assert s.retired + {} == s.retired;
  }

  lemma Reserves(c: Config, s: State, i: nat, now: int)
    requires i < |s.pcs| && s.pcs[i].Acquire? && Awake(s.pcs)
    requires !s.p.shuttingDown && s.p.idle == [] && s.p.total < c.maxSize
    ensures Step(c, s, Act(i, CallAcquire, now)) ==
            s.(p := s.p.(total := s.p.total + 1, active := s.p.active + 1), pcs := s.pcs[i := Creating])
    ensures Awake(s.pcs[i := Creating])
  {
    StepAwake(c, s, Act(i, CallAcquire, now));
    assert s.retired + {} == s.retired;
  }

  lemma Creates(c: Config, s: State, i: nat, now: int)
    requires i < |s.pcs| && s.pcs[i].Creating? && Awake(s.pcs)
    ensures var made := s.pcs[i := Created(Entry(s.nextId, now, now))];
            Step(c, s, Act(i, CallAcquire, now)) == s.(pcs := made, nextId := s.nextId + 1) && Awake(made)
  {
    StepAwake(c, s, Act(i, CallAcquire, now));
    assert s.retired + {} == s.retired;
  }

  lemma Makes(c: Config, s: State, i: nat, now: int)
    requires i < |s.pcs| && s.pcs[i].Idle? && Awake(s.pcs)
    requires !s.p.shuttingDown && s.p.idle == [] && s.p.total < c.maxSize
    ensures Exec(c, s, Make(i, now)) ==
            s.(p := s.p.(total := s.p.total + 1, active := s.p.active + 1),
               pcs := s.pcs[i := Created(Entry(s.nextId, now, now))], nextId := s.nextId + 1)
    ensures Awake(Exec(c, s, Make(i, now)).pcs)
  {
    var a := Act(i, CallAcquire, now);
    Begins(c, s, i, CallAcquire, now);
    var s1 := Step(c, s, a);
    Reserves(c, s1, i, now);
    var s2 := Step(c, s1, a);
    Creates(c, s2, i, now);
    ExecThree(c, s, a, a, a);
    assert s.pcs[i := Acquire(false)][i := Creating] == s.pcs[i := Creating];
  }

  /** Actors 0 to k - 1 have made a connection each, at time 0. */
  function Filled(actors: nat, k: nat): State {
    State(Pool([], false, k, k, 0, 0, 0, 0, 0),
          seq(actors, i requires 0 <= i => if i < k then Created(Entry(i, 0, 0)) else Idle), k, 0, {}, false)
  }

  function Fill(k: nat): seq<Action> {
    if k == 0 then [] else Fill(k - 1) + Make(k - 1, 0)
  }

  lemma FillOne(c: Config, actors: nat, k: nat)
    requires k < c.maxSize && k < actors
    ensures Exec(c, Filled(actors, k), Make(k, 0)) == Filled(actors, k + 1)
  {
    Makes(c, Filled(actors, k), k, 0);
    assert Filled(actors, k).pcs[k := Created(Entry(k, 0, 0))] == Filled(actors, k + 1).pcs;
  }

  lemma {:induction false} Fills(c: Config, actors: nat, k: nat)
    requires k <= c.maxSize && k <= actors
    ensures Exec(c, Init(actors), Fill(k)) == Filled(actors, k)
  {
    if k == 0 {
      assert Init(actors) == Filled(actors, 0);
    } else {
      Fills(c, actors, k - 1);
      FillOne(c, actors, k - 1);
      ExecConcat(c, Init(actors), Fill(k - 1), Make(k - 1, 0));
    }
  }

  lemma {:induction false} FillsAtOnce(k: nat)
    ensures forall j :: 0 <= j < |Fill(k)| ==> Fill(k)[j].now == 0
  {
    if k > 0 { FillsAtOnce(k - 1); }
  }

  /** What matters of a state for opening one connection more. */
  ghost predicate Calm(s: State, idle: seq<Entry>, total: int) {
    && Awake(s.pcs) && !s.p.shuttingDown && s.p.idle == idle && s.p.total == total && s.closed == 0
  }

  /** A connection is handed out at time 0 and given back at `now`. */
  function Lend(now: int): seq<Action> {
    [Act(0, CallAcquire, 0), Act(0, CallAcquire, 0), Act(0, CallAcquire, now)]
  }

  lemma Lends(c: Config, s: State, e: Entry, now: int, total: int)
    requires 0 < |s.pcs| && s.pcs[0] == Created(e) && Calm(s, [], total)
    ensures var s' := Exec(c, s, Lend(now)); var expired := IsExpired(e.createdAt, now, c.maxLifetime);
            && s'.pcs == s.pcs[0 := Releasing(e.(lastUsedAt := now), expired)]
            && Calm(s', [], total) && s'.nextId == s.nextId
  {
    var a, b := Act(0, CallAcquire, 0), Act(0, CallAcquire, now);
    StepAwake(c, s, a);
    var s1 := Step(c, s, a);
    assert s1.pcs == s.pcs[0 := Deciding(e)];
    StepAwake(c, s1, a);
    var s2 := Step(c, s1, a);
    assert s2.pcs == s.pcs[0 := Borrowed(e)];
    StepAwake(c, s2, b);
    ExecThree(c, s, a, a, b);
  }

  /** A returned connection that has expired is uncounted, and still to be closed. */
  lemma ReturnsExpired(c: Config, s: State, e: Entry, now: int, total: int)
    requires 0 < |s.pcs| && s.pcs[0] == Releasing(e, true) && Calm(s, [], total)
    ensures var s' := Step(c, s, Act(0, CallAcquire, now));
            s'.pcs == s.pcs[0 := Closing([e], false)] && Calm(s', [], total - 1) && s'.nextId == s.nextId
  {
    StepAwake(c, s, Act(0, CallAcquire, now));
  }

  /** One that has not goes to the idle queue. */
  lemma ReturnsToIdle(c: Config, s: State, e: Entry, at: int, total: int)
    requires 0 < |s.pcs| && s.pcs[0] == Releasing(e, false) && Calm(s, [], total)
    ensures var s' := Step(c, s, Act(0, CallAcquire, at));
            s'.pcs == s.pcs[0 := Idle] && Calm(s', [e], total) && s'.nextId == s.nextId
  {
    StepAwake(c, s, Act(0, CallAcquire, at));
    assert [] + [e] == [e];
  }

  /** When it has idled for too long, the cleaner uncounts it, and it is still to be closed. */
  lemma Cleans(c: Config, s: State, e: Entry, now: int, total: int)
    requires 0 < |s.pcs| && s.pcs[0] == Cleaning(now) && Calm(s, [e], total)
    requires ShouldRetire(c, e, now) && total > c.minIdle
    ensures var s' := Step(c, s, Act(0, CallAcquire, now));
            s'.pcs == s.pcs[0 := Closing([e], false)] && Calm(s', [], total - 1) && s'.nextId == s.nextId
  {
    SweepOne(c, e, total - c.minIdle, now);
    StepAwake(c, s, Act(0, CallAcquire, now));
  }

  /** The connection comes back at `at`, and the cleaner at `now`. */
  function Clean(at: int, now: int): seq<Action> {
    [Act(0, CallAcquire, at), Act(0, CallCleanup, now), Act(0, CallAcquire, now)]
  }

  lemma ReturnsAndIsCleaned(c: Config, s: State, e: Entry, at: int, now: int, total: int)
    requires 0 < |s.pcs| && s.pcs[0] == Releasing(e, false) && Calm(s, [], total)
    requires ShouldRetire(c, e, now) && total > c.minIdle
    ensures var s' := Exec(c, s, Clean(at, now));
            s'.pcs == s.pcs[0 := Closing([e], false)] && Calm(s', [], total - 1) && s'.nextId == s.nextId
  {
    var a, b, d := Act(0, CallAcquire, at), Act(0, CallCleanup, now), Act(0, CallAcquire, now);
    ReturnsToIdle(c, s, e, at, total);
    var s1 := Step(c, s, a);
    Begins(c, s1, 0, CallCleanup, now);
    Cleans(c, Step(c, s1, b), e, now, total);
    ExecThree(c, s, a, b, d);
    assert s.pcs[0 := Idle][0 := Cleaning(now)][0 := Closing([e], false)] == s.pcs[0 := Closing([e], false)];
  }

  lemma SweepOne(c: Config, e: Entry, budget: int, now: int)
    requires ShouldRetire(c, e, now) && budget > 0
    ensures Sweep(c, [e], budget, now) == ([], [e])
  {
    assert [e][1..] == [] && [e] + [] == [e];
    assert Sweep(c, [], budget - 1, now) == ([], []);
  }

  /** Somebody else finds the slot free and makes one more connection. */
  lemma OneMore(c: Config, s: State, i: nat, now: int)
    requires i < |s.pcs| && s.pcs[i].Idle? && Calm(s, [], c.maxSize - 1) && s.nextId == c.maxSize
    ensures Open(Exec(c, s, Make(i, now))) == c.maxSize + 1
  {
    Makes(c, s, i, now);
  }

  /** `s` has made `max_size` connections and has a slot free, with an idle actor to take it. */
  ghost predicate SlotFree(c: Config, s: State) {
    |s.pcs| == c.maxSize + 1 && s.pcs[c.maxSize].Idle? && Calm(s, [], c.maxSize - 1) && s.nextId == c.maxSize
  }

  /** When `max_size` connections were made and `rest` gives up one of them, one more can be made. */
  lemma OpensTooMany(c: Config, rest: seq<Action>, now: int)
    requires c.maxSize > 0 && SlotFree(c, Exec(c, Filled(c.maxSize + 1, c.maxSize), rest))
    ensures Open(Exec(c, Init(c.maxSize + 1), TooManyRun(c, rest, now))) == c.maxSize + 1
  {
    var n, more := c.maxSize, Make(c.maxSize, now);
    Fills(c, n + 1, n);
    OneMore(c, Exec(c, Filled(n + 1, n), rest), n, now);
    ExecConcat(c, Init(n + 1), Fill(n), rest + more);
    ExecConcat(c, Filled(n + 1, n), rest, more);
  }

  function TooManyRun(c: Config, rest: seq<Action>, now: int): seq<Action> {
    Fill(c.maxSize) + (rest + Make(c.maxSize, now))
  }

  /** A life time that ends: a connection comes back when it is over. */
  function Outlive(now: int): seq<Action> {
    Lend(now) + [Act(0, CallAcquire, now)]
  }

  lemma LendsAndExpires(c: Config, s: State, e: Entry, now: int, total: int)
    requires 0 < |s.pcs| && s.pcs[0] == Created(e) && Calm(s, [], total) && IsExpired(e.createdAt, now, c.maxLifetime)
    ensures var s' := Exec(c, s, Outlive(now));
            && |s'.pcs| == |s.pcs| && (forall i :: 0 < i < |s.pcs| ==> s'.pcs[i] == s.pcs[i])
            && Calm(s', [], total - 1) && s'.nextId == s.nextId
  {
    var s1, back := Exec(c, s, Lend(now)), [Act(0, CallAcquire, now)];
    Lends(c, s, e, now, total);
    ReturnsExpired(c, s1, e.(lastUsedAt := now), now, total);
    ExecConcat(c, s, Lend(now), back);
    assert back[..0] == [] && Exec(c, s1, back) == Step(c, s1, back[0]);
  }

  lemma ExpiryFreesSlot(c: Config)
    requires c.maxSize > 0 && c.maxLifetime >= 0
    ensures SlotFree(c, Exec(c, Filled(c.maxSize + 1, c.maxSize), Outlive(c.maxLifetime)))
  {
    LendsAndExpires(c, Filled(c.maxSize + 1, c.maxSize), Entry(0, 0, 0), c.maxLifetime, c.maxSize);
  }

  lemma LifetimeOpensTooMany(c: Config)
    requires c.maxSize > 0 && c.maxLifetime >= 0
    ensures Open(Exec(c, Init(c.maxSize + 1), TooManyRun(c, Outlive(c.maxLifetime), c.maxLifetime))) == c.maxSize + 1
  {
    ExpiryFreesSlot(c);
    OpensTooMany(c, Outlive(c.maxLifetime), c.maxLifetime);
  }

  /** An idle time that ends: a connection comes back at `at`, and the cleaner when its idle time is over. */
  function Outidle(at: int, now: int): seq<Action> {
    Lend(at) + Clean(at, now)
  }

  lemma LendsAndCleans(c: Config, s: State, e: Entry, at: int, now: int, total: int)
    requires 0 < |s.pcs| && s.pcs[0] == Created(e) && Calm(s, [], total) && total > c.minIdle
    requires c.maxLifetime < 0 && IsExpired(at, now, c.idleTimeout)
    ensures var s' := Exec(c, s, Outidle(at, now));
            && |s'.pcs| == |s.pcs| && (forall i :: 0 < i < |s.pcs| ==> s'.pcs[i] == s.pcs[i])
            && Calm(s', [], total - 1) && s'.nextId == s.nextId
  {
    Lends(c, s, e, at, total);
    ReturnsAndIsCleaned(c, Exec(c, s, Lend(at)), e.(lastUsedAt := at), at, now, total);
    ExecConcat(c, s, Lend(at), Clean(at, now));
  }

  lemma CleaningFreesSlot(c: Config, at: int, now: int)
    requires c.maxLifetime < 0 && c.minIdle < c.maxSize && IsExpired(at, now, c.idleTimeout)
    ensures SlotFree(c, Exec(c, Filled(c.maxSize + 1, c.maxSize), Outidle(at, now)))
  {
    LendsAndCleans(c, Filled(c.maxSize + 1, c.maxSize), Entry(0, 0, 0), at, now, c.maxSize);
  }

  lemma IdlingOpensTooMany(c: Config, at: int, now: int)
    requires c.maxLifetime < 0 && c.minIdle < c.maxSize && IsExpired(at, now, c.idleTimeout)
    ensures Open(Exec(c, Init(c.maxSize + 1), TooManyRun(c, Outidle(at, now), now))) == c.maxSize + 1
  {
    CleaningFreesSlot(c, at, now);
    OpensTooMany(c, Outidle(at, now), now);
  }

  /** All of a run happens between two times. */
  ghost predicate Between(run: seq<Action>, from: int, to: int) {
    Forward(run) && forall j :: 0 <= j < |run| ==> from <= run[j].now <= to
  }

  lemma Later(run: seq<Action>, more: seq<Action>, from: int, at: int, to: int)
    requires from <= at <= to && Between(run, from, at) && Between(more, at, to)
    ensures Between(run + more, from, to)
  {
  }

  lemma TooManyRunForward(c: Config, rest: seq<Action>, now: int)
    requires 0 <= now && Between(rest, 0, now)
    ensures Forward(TooManyRun(c, rest, now))
  {
    var more := Make(c.maxSize, now);
    FillsAtOnce(c.maxSize);
    Later(rest, more, 0, now, now);
    Later(Fill(c.maxSize), rest + more, 0, 0, now);
  }

  lemma TailsForward(at: int, now: int)
    requires 0 <= at <= now
    ensures Between(Outlive(now), 0, now) && Between(Outidle(at, now), 0, now)
  {
    Later(Lend(now), [Act(0, CallAcquire, now)], 0, now, now);
    Later(Lend(at), Clean(at, now), 0, at, now);
  }

  // ---------- The exact condition ----------

  /** However the actors interleave, and however many there are, no more than `max_size` connections are open. */
  ghost predicate NeverTooManyOpen(c: Config) {
    forall actors: nat, run: seq<Action> :: Forward(run) ==> Open(Exec(c, Init(actors), run)) <= c.maxSize
  }

  /**
   `max_size` caps the open connections, over all runs, exactly if no connection ever reaches its life time and the
   cleaner never retires one: the life time is unlimited, and the idle time is too or `min_idle` is `max_size`.
   */
  lemma OpenStaysWithinMaxSizeIff(c: Config)
    requires 0 < c.maxSize
    ensures NeverTooManyOpen(c) <==> c.maxLifetime < 0 && (c.idleTimeout < 0 || c.minIdle >= c.maxSize)
  {
    if KeepsConnections(c) {
      forall actors: nat, run: seq<Action> | Forward(run) ensures Open(Exec(c, Init(actors), run)) <= c.maxSize {
        RunTight(c, actors, run);
        OpenIsAccountedFor(c, actors, run);
      }
    } else {
      TooManyOpen(c);
    }
  }

  lemma TooManyOpen(c: Config)
    requires 0 < c.maxSize && !KeepsConnections(c)
    ensures !NeverTooManyOpen(c)
  {
    var at := 0;
    var now := if c.maxLifetime >= 0 then c.maxLifetime else at + c.idleTimeout;
    TailsForward(at, now);
    var rest := if c.maxLifetime >= 0 then Outlive(now) else Outidle(at, now);
    TooManyRunForward(c, rest, now);
    if c.maxLifetime >= 0 {
      LifetimeOpensTooMany(c);
    } else {
      IdlingOpensTooMany(c, at, now);
    }
    assert Open(Exec(c, Init(c.maxSize + 1), TooManyRun(c, rest, now))) == c.maxSize + 1;
  }
}
