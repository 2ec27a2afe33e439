/** A connection has one owner at a time, and one that was given up for closing is never lent again. */
module PoolOwnership {
  import opened Common
  import opened PoolModel

  ghost predicate LiveId(s: State, id: nat) {
    id < s.nextId && id !in s.retired
  }

  ghost predicate IdleOwned(s: State) {
    && (forall k :: 0 <= k < |s.p.idle| ==> LiveId(s, s.p.idle[k].id))
    && (forall k, l :: 0 <= k < l < |s.p.idle| ==> s.p.idle[k].id != s.p.idle[l].id)
  }

  ghost predicate ActorsOwned(s: State) {
    && (forall i :: 0 <= i < |s.pcs| && Holds(s.pcs[i]) ==> LiveId(s, s.pcs[i].e.id))
    && (forall i, j :: 0 <= i < j < |s.pcs| && Holds(s.pcs[i]) && Holds(s.pcs[j]) ==>
                         s.pcs[i].e.id != s.pcs[j].e.id)
  }

  ghost predicate Apart(s: State) {
    forall i, k :: 0 <= i < |s.pcs| && 0 <= k < |s.p.idle| && Holds(s.pcs[i]) ==> s.pcs[i].e.id != s.p.idle[k].id
  }

  ghost predicate Owned(s: State) {
    IdleOwned(s) && ActorsOwned(s) && Apart(s) && (forall id :: id in s.retired ==> id < s.nextId)
  }

  /** Notifications move sleepers only, and sleepers hold nothing. */
  lemma WakingKeepsHolders(pcs: seq<Pc>, wake: Wake, pick: nat, done: bool)
    ensures var pcs' := WakeShutdown(WakeUp(pcs, wake, pick), done);
            |pcs'| == |pcs| &&
            forall i :: 0 <= i < |pcs| ==>
              Holds(pcs'[i]) == Holds(pcs[i]) && (Holds(pcs[i]) ==> pcs'[i].e == pcs[i].e)
  {
  }

  // ---------- The cleaner's choice ----------

  /** `f` picks `xs` out of `ys`, in order. */
  ghost predicate Picks(xs: seq<Entry>, ys: seq<Entry>, f: seq<nat>) {
    |f| == |xs| &&
    (forall k :: 0 <= k < |f| ==> f[k] < |ys| && ys[f[k]] == xs[k]) &&
    (forall k, l :: 0 <= k < l < |f| ==> f[k] < f[l])
  }

  function Shift(f: seq<nat>): seq<nat> {
    seq(|f|, i requires 0 <= i < |f| => f[i] + 1)
  }

  /** How many of the first `j` entries have run out of a time. */
  function DueBefore(c: Config, idle: seq<Entry>, j: nat, now: int): nat
    requires j <= |idle|
  {
    if j == 0 then 0 else One(!Fresh(c, idle[0], now)) + DueBefore(c, idle[1..], j - 1, now)
  }

  /** The sweep retires exactly the due entries with fewer than `budget` due entries in front of them. */
  ghost predicate Chosen(c: Config, idle: seq<Entry>, budget: int, now: int, j: nat)
    requires j < |idle|
  {
    !Fresh(c, idle[j], now) && DueBefore(c, idle, j, now) < budget
  }

  lemma ChosenNext(c: Config, idle: seq<Entry>, budget: int, now: int, j: nat)
    requires j + 1 < |idle|
    ensures var take := ShouldRetire(c, idle[0], now) && budget > 0;
            Chosen(c, idle, budget, now, j + 1) <==> Chosen(c, idle[1..], if take then budget - 1 else budget, now, j)
  {
    RetiredIffNotFresh(c, idle[0], now);
    assert DueBefore(c, idle, j + 1, now) == One(!Fresh(c, idle[0], now)) + DueBefore(c, idle[1..], j, now);
  }

  /** `f` are the indices the sweep keeps and `g` those it retires. */
  ghost predicate Sorts(c: Config, idle: seq<Entry>, budget: int, now: int, f: seq<nat>, g: seq<nat>) {
    forall j: nat :: j < |idle| ==> (j in g <==> Chosen(c, idle, budget, now, j)) && (j in f <==> j !in g)
  }

  lemma SortsNext(c: Config, idle: seq<Entry>, budget: int, now: int, f: seq<nat>, g: seq<nat>)
    requires idle != []
    requires var take := ShouldRetire(c, idle[0], now) && budget > 0;
             Sorts(c, idle[1..], if take then budget - 1 else budget, now, f, g)
    ensures var take := ShouldRetire(c, idle[0], now) && budget > 0;
            Sorts(c, idle, budget, now, if take then Shift(f) else [0] + Shift(f), if take then [0] + Shift(g) else Shift(g))
  {
    InShift(f);
    InShift(g);
    RetiredIffNotFresh(c, idle[0], now);
    forall j: nat | 0 < j < |idle| ensures Chosen(c, idle, budget, now, j) <==> j in Shift(g) {
      ChosenNext(c, idle, budget, now, j - 1);
    }
  }

  /**
   The sweep splits the idle queue: both parts keep its order, every entry is in exactly one of them, and the stale
   part is the longest-idle due entries, as many as `total` may lose before it reaches `min_idle`.
   */
  lemma {:induction false} SweepSplits(c: Config, idle: seq<Entry>, budget: int, now: int)
    returns (f: seq<nat>, g: seq<nat>)
    ensures var (kept, stale) := Sweep(c, idle, budget, now);
            && Picks(kept, idle, f) && Picks(stale, idle, g) && |f| + |g| == |idle|
    ensures forall j: nat :: j < |idle| ==> (j in g <==> Chosen(c, idle, budget, now, j)) && (j in f <==> j !in g)
  {
    if idle == [] {
      f, g := [], [];
    } else {
      var x, rest := idle[0], idle[1..];
      assert idle == [x] + rest;
      var take := ShouldRetire(c, x, now) && budget > 0;
      var budget' := if take then budget - 1 else budget;
      var (kept, stale) := Sweep(c, rest, budget', now);
      var f0, g0 := SweepSplits(c, rest, budget', now);
      SortsNext(c, idle, budget, now, f0, g0);
      PicksShift(x, kept, rest, f0);
      PicksShift(x, stale, rest, g0);
      f := if take then Shift(f0) else [0] + Shift(f0);
      g := if take then [0] + Shift(g0) else Shift(g0);
    }
  }

  /**
   What a sweep takes has run out of a time; what it keeps has not, or the sweep has taken all that `total` may lose.
   Nothing is lost.
   */
  lemma {:induction false} SweepTakes(c: Config, idle: seq<Entry>, budget: int, now: int)
    ensures var (kept, stale) := Sweep(c, idle, budget, now);
            && multiset(kept) + multiset(stale) == multiset(idle) && |kept| + |stale| == |idle|
            && (|stale| <= budget || stale == [])
            && (forall e :: e in stale ==> !Fresh(c, e, now))
            && (forall e :: e in kept ==> Fresh(c, e, now) || |stale| >= budget)
  {
    if idle != [] {
      var x, rest := idle[0], idle[1..];
      assert idle == [x] + rest;
      RetiredIffNotFresh(c, x, now);
      SweepTakes(c, rest, if ShouldRetire(c, x, now) && budget > 0 then budget - 1 else budget, now);
    }
  }

  /**
   What a cleaner's pass is for: the connections it takes have reached their life time or been idle too long; those it
   keeps have not, unless only `min_idle` are counted any more; and it never goes below `min_idle`.
   */
  ghost predicate Tidied(c: Config, was: seq<Entry>, now: int, idle: seq<Entry>, stale: seq<Entry>, total: int) {
    && multiset(idle) + multiset(stale) == multiset(was)
    && (forall e :: e in stale ==>
          (c.maxLifetime >= 0 && now - e.createdAt >= c.maxLifetime) ||
          (c.idleTimeout >= 0 && now - e.lastUsedAt >= c.idleTimeout))
    && (forall e :: e in idle ==>
          total <= c.minIdle ||
          ((c.maxLifetime < 0 || now - e.createdAt < c.maxLifetime) &&
           (c.idleTimeout < 0 || now - e.lastUsedAt < c.idleTimeout)))
    && (stale != [] ==> total >= c.minIdle)
  }

  lemma TidiedBySweep(c: Config, was: Pool, now: int, idle: seq<Entry>, stale: seq<Entry>, total: int)
    requires (idle, stale) == Sweep(c, was.idle, was.total - c.minIdle, now) && total == was.total - |stale|
    ensures Tidied(c, was.idle, now, idle, stale, total)
  {
    SweepTakes(c, was.idle, was.total - c.minIdle, now);
  }

  lemma PicksShift(x: Entry, xs: seq<Entry>, ys: seq<Entry>, f: seq<nat>)
    requires Picks(xs, ys, f)
    ensures Picks(xs, [x] + ys, Shift(f))
    ensures Picks([x] + xs, [x] + ys, [0] + Shift(f))
  {
  }

  lemma InShift(f: seq<nat>)
    ensures forall j :: 0 < j ==> (j in Shift(f) <==> j - 1 in f)
    ensures 0 !in Shift(f)
  {
    forall j | 0 < j && j - 1 in f ensures j in Shift(f) {
      var k :| 0 <= k < |f| && f[k] == j - 1;
      assert Shift(f)[k] == j;
    }
  }

  // ---------- Ownership is kept ----------

  /** A step before its notifications take effect. */
  function Unnotified(c: Config, s: State, a: Action): State
    requires a.i < |s.pcs|
  {
    Step(c, s, a).(pcs := s.pcs[a.i := Advance(c, s, s.pcs[a.i], a).pc])
  }

  /** Actor `i` keeps the connection it holds, gives it up for closing, or hands it back to the idle queue. */
  ghost predicate HandsOn(s: State, i: nat, s': State)
    requires i < |s.pcs| && Holds(s.pcs[i])
  {
    var e := s.pcs[i].e;
    && |s'.pcs| == |s.pcs| && s'.pcs == s.pcs[i := s'.pcs[i]] && s'.nextId == s.nextId
    && if Holds(s'.pcs[i]) then s'.pcs[i].e.id == e.id && s'.retired == s.retired && s'.p.idle == s.p.idle
       else (s'.retired == s.retired + {e.id} && s'.p.idle == s.p.idle) ||
            (s'.retired == s.retired && |s'.p.idle| == |s.p.idle| + 1 && s'.p.idle[..|s.p.idle|] == s.p.idle &&
             s'.p.idle[|s.p.idle|].id == e.id)
  }

  lemma HandedOn(s: State, i: nat, s': State)
    requires Owned(s) && i < |s.pcs| && Holds(s.pcs[i]) && HandsOn(s, i, s')
    ensures Owned(s')
  {
    assert forall k :: 0 <= k < |s.p.idle| ==> s'.p.idle[k] == s.p.idle[k];
    assert forall j :: 0 <= j < |s.pcs| && j != i ==> s'.pcs[j] == s.pcs[j];
  }

  lemma HolderStep(c: Config, s: State, a: Action)
    requires a.i < |s.pcs| && Holds(s.pcs[a.i])
    ensures HandsOn(s, a.i, Unnotified(c, s, a))
  {
  }

  /** A connection is kept, handed back or given up by the actor that holds it. */
  lemma HolderOwned(c: Config, s: State, a: Action)
    requires Owned(s) && a.i < |s.pcs| && Holds(s.pcs[a.i])
    ensures Owned(Unnotified(c, s, a))
  {
    HolderStep(c, s, a);
    HandedOn(s, a.i, Unnotified(c, s, a));
  }

  /** Actor `i`, with nothing in hand, takes the connection at the front, makes a new one, or does neither. */
  ghost predicate TakesHold(s: State, i: nat, s': State)
    requires i < |s.pcs|
  {
    && |s'.pcs| == |s.pcs| && s'.pcs == s.pcs[i := s'.pcs[i]] && s'.retired == s.retired
    && if !Holds(s'.pcs[i]) then s'.p.idle == s.p.idle && s'.nextId == s.nextId
       else (s'.p.idle == s.p.idle && s'.pcs[i].e.id == s.nextId && s'.nextId == s.nextId + 1) ||
            (s.p.idle != [] && s'.p.idle == s.p.idle[1..] && s'.pcs[i].e == s.p.idle[0] && s'.nextId == s.nextId)
  }

  lemma TookHold(s: State, i: nat, s': State)
    requires Owned(s) && i < |s.pcs| && !Holds(s.pcs[i]) && TakesHold(s, i, s')
    ensures Owned(s')
  {
    assert forall j :: 0 <= j < |s.pcs| && j != i ==> s'.pcs[j] == s.pcs[j];
  }

  lemma TakerStep(c: Config, s: State, a: Action)
    requires a.i < |s.pcs| && !Holds(s.pcs[a.i]) && !s.pcs[a.i].Cleaning? && !s.pcs[a.i].ShutdownWait?
    ensures TakesHold(s, a.i, Unnotified(c, s, a))
  {
  }

  /** A borrower takes the connection at the front, or an actor makes a new one. */
  lemma TakerOwned(c: Config, s: State, a: Action)
    requires Owned(s) && a.i < |s.pcs| && !Holds(s.pcs[a.i]) && !s.pcs[a.i].Cleaning? && !s.pcs[a.i].ShutdownWait?
    ensures Owned(Unnotified(c, s, a))
  {
    TakerStep(c, s, a);
    TookHold(s, a.i, Unnotified(c, s, a));
  }

  /** Taking some connections out of the idle queue for closing leaves the others owned. */
  lemma FewerIdle(s: State, s': State, f: seq<nat>, gone: seq<Entry>, g: seq<nat>)
    requires Owned(s) && Picks(s'.p.idle, s.p.idle, f) && Picks(gone, s.p.idle, g)
    requires forall k, l :: 0 <= k < |f| && 0 <= l < |g| ==> f[k] != g[l]
    requires s'.nextId == s.nextId && s'.retired == s.retired + Ids(gone)
    requires |s'.pcs| == |s.pcs|
    requires forall i :: 0 <= i < |s.pcs| ==> Holds(s'.pcs[i]) ==> Holds(s.pcs[i]) && s'.pcs[i].e == s.pcs[i].e
    ensures Owned(s')
  {
    assert forall l :: 0 <= l < |gone| ==> s.p.idle[g[l]].id == gone[l].id;
    assert forall k :: 0 <= k < |f| ==> s'.p.idle[k].id == s.p.idle[f[k]].id;
    forall k, l | 0 <= k < |f| && 0 <= l < |g| ensures s.p.idle[f[k]].id != s.p.idle[g[l]].id {
      assert f[k] < g[l] || g[l] < f[k];
    }
  }

  lemma CleanerOwned(c: Config, s: State, a: Action)
    requires Owned(s) && a.i < |s.pcs| && s.pcs[a.i].Cleaning?
    ensures Owned(Unnotified(c, s, a))
  {
    var s', budget, now := Unnotified(c, s, a), s.p.total - c.minIdle, s.pcs[a.i].now;
    var f, g := SweepSplits(c, s.p.idle, budget, now);
    forall k, l | 0 <= k < |f| && 0 <= l < |g| ensures f[k] != g[l] {
      assert f[k] in f && g[l] in g;
    }
    FewerIdle(s, s', f, Sweep(c, s.p.idle, budget, now).1, g);
  }

  /** Emptying the idle queue for closing. */
  lemma AllGone(s: State, s': State)
    requires Owned(s) && s'.p.idle == [] && s'.nextId == s.nextId && s'.retired == s.retired + Ids(s.p.idle)
    requires |s'.pcs| == |s.pcs|
    requires forall i :: 0 <= i < |s.pcs| ==> Holds(s'.pcs[i]) ==> Holds(s.pcs[i]) && s'.pcs[i].e == s.pcs[i].e
    ensures Owned(s')
  {
    var g := seq(|s.p.idle|, i => i);
    FewerIdle(s, s', [], s.p.idle, g);
  }

  /** The cleaner and the shutdown take connections out of the idle queue for closing. */
  lemma CloserOwned(c: Config, s: State, a: Action)
    requires Owned(s) && a.i < |s.pcs| && (s.pcs[a.i].Cleaning? || s.pcs[a.i].ShutdownWait?)
    ensures Owned(Unnotified(c, s, a))
  {
    if s.pcs[a.i].Cleaning? {
      CleanerOwned(c, s, a);
    } else if s.p.active == 0 {
      AllGone(s, Unnotified(c, s, a));
    }
  }

  lemma {:induction false} StepOwned(c: Config, s: State, a: Action)
    requires Owned(s)
    ensures Owned(Step(c, s, a))
  {
    if a.i < |s.pcs| {
      var pc := s.pcs[a.i];
      if Holds(pc) { HolderOwned(c, s, a); }
      else if pc.Cleaning? || pc.ShutdownWait? { CloserOwned(c, s, a); }
      else { TakerOwned(c, s, a); }
      var r := Advance(c, s, pc, a);
      WakingKeepsHolders(s.pcs[a.i := r.pc], r.wake, a.pick, r.wakeShutdown);
      SameHolders(Unnotified(c, s, a), Step(c, s, a));
    }
  }

  lemma SameHolders(s: State, s': State)
    requires Owned(s) && s'.p.idle == s.p.idle && s'.nextId == s.nextId && s'.retired == s.retired
    requires |s'.pcs| == |s.pcs|
    requires forall i :: 0 <= i < |s.pcs| ==>
               Holds(s'.pcs[i]) == Holds(s.pcs[i]) && (Holds(s.pcs[i]) ==> s'.pcs[i].e == s.pcs[i].e)
    ensures Owned(s')
  {
  }

  lemma {:induction false} ExecOwned(c: Config, s: State, run: seq<Action>)
    requires Owned(s)
    ensures Owned(Exec(c, s, run))
  {
    if run != [] {
      ExecOwned(c, s, run[..|run| - 1]);
      StepOwned(c, Exec(c, s, run[..|run| - 1]), run[|run| - 1]);
    }
  }

  /**
   In every reachable state two callers never hold the same connection, a connection in somebody's hands is not
   idle, and no connection that is idle or in use has been given up for closing.
   */
  lemma ConnectionsHaveOneOwner(c: Config, actors: nat, run: seq<Action>, i: nat, j: nat)
    requires i < |Exec(c, Init(actors), run).pcs| && Exec(c, Init(actors), run).pcs[i].Borrowed?
    ensures var s := Exec(c, Init(actors), run); var id := s.pcs[i].e.id;
            && id !in s.retired
            && id !in Ids(s.p.idle)
            && Ids(s.p.idle) !! s.retired
            && (i != j < |s.pcs| && Holds(s.pcs[j]) ==> s.pcs[j].e.id != id)
  {
    ExecOwned(c, Init(actors), run);
  }
}
