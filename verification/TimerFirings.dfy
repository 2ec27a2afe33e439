/** What happens to each issued identifier: the fates the books record are the callbacks that were really issued. */
module TimerFirings {
  import opened Common
  import opened TimerModel
  import opened TimerRuns
  import opened TimerTheorems

  predicate Of(f: Firing, id: nat) { f.id == id }

  /** How often timer `id` fired. */
  function Fired(issued: seq<Firing>, id: nat): nat {
    Count(issued, (f: Firing) => Of(f, id))
  }

  /** How many firings were of the timers `ids`. */
  function FiredAmong(issued: seq<Firing>, ids: set<nat>): nat {
    Count(issued, (f: Firing) => f.id in ids)
  }

  /** Identifier `id` fired as its history says: a one-shot fired once if that is its fate, and never otherwise. */
  ghost predicate Honest(s: State, id: nat) {
    && (id >= s.core.nextId ==> Fired(s.issued, id) == 0 && id !in s.oneShots)
    && (id in s.core.timers ==> (id in s.oneShots <==> !s.core.timers[id].repeating))
    && (id in s.fate && s.fate[id] == FiredOnce ==> id in s.oneShots)
    && (id in s.oneShots ==> Fired(s.issued, id) == One(id in s.fate && s.fate[id] == FiredOnce))
  }

  // ---------- Counting the firings of a drain ----------

  lemma {:induction false} NeverFired(issued: seq<Firing>, id: nat)
    ensures Fired(issued, id) == 0 <==> forall k :: 0 <= k < |issued| ==> issued[k].id != id
  {
    CountZero(issued, (f: Firing) => Of(f, id));
  }

  lemma FiringsPrefix(timers: map<nat, TimerEntry>, ids: seq<nat>)
    requires ids != []
    ensures Firings(timers, ids)[..|ids| - 1] == Firings(timers, ids[..|ids| - 1])
    ensures |Firings(timers, ids)| == |ids| && Firings(timers, ids)[|ids| - 1].id == ids[|ids| - 1]
  {
  }

  lemma LastIsNew(timers: map<nat, TimerEntry>, ids: seq<nat>)
    requires ids != [] && InOrder(timers, ids)
    ensures ids[|ids| - 1] !in ids[..|ids| - 1] && InOrder(timers, ids[..|ids| - 1])
  {
  }

  /** A drain fires each timer of its list once. */
  lemma {:induction false} FiredByDrain(timers: map<nat, TimerEntry>, ids: seq<nat>, id: nat)
    requires InOrder(timers, ids)
    ensures Fired(Firings(timers, ids), id) == One(id in ids)
  {
    if ids != [] {
      hide Firings;
      var before, last := ids[..|ids| - 1], ids[|ids| - 1];
      assert ids == before + [last];
      FiredByDrain(timers, before, id);
      FiringsPrefix(timers, ids);
      LastIsNew(timers, ids);
    }
  }

  lemma OneShotsPrefix(timers: map<nat, TimerEntry>, ids: seq<nat>)
    requires ids != [] && InOrder(timers, ids)
    ensures var before, last := ids[..|ids| - 1], ids[|ids| - 1];
            last !in before &&
            OneShots(timers, ids) ==
            OneShots(timers, before) + if last in timers && !timers[last].repeating then {last} else {}
  {
    assert ids == ids[..|ids| - 1] + [ids[|ids| - 1]];
  }

  /** A drain fires as many one-shots as it removes. */
  lemma {:induction false} OneShotsOfDrain(timers: map<nat, TimerEntry>, ids: seq<nat>, oneShots: set<nat>)
    requires InOrder(timers, ids) && forall id :: id in ids ==> id in timers
    requires forall id :: id in timers ==> (id in oneShots <==> !timers[id].repeating)
    ensures FiredAmong(Firings(timers, ids), oneShots) == |OneShots(timers, ids)|
  {
    if ids != [] {
      OneShotsOfDrain(timers, ids[..|ids| - 1], oneShots);
      FiringsPrefix(timers, ids);
      OneShotsPrefix(timers, ids);
      assert ids[|ids| - 1] in ids;
    }
  }

  lemma {:induction false} AmongMore(issued: seq<Firing>, ids: set<nat>, id: nat)
    requires Fired(issued, id) == 0
    ensures FiredAmong(issued, ids + {id}) == FiredAmong(issued, ids)
  {
    NeverFired(issued, id);
    if issued != [] {
      NeverFired(issued[..|issued| - 1], id);
      AmongMore(issued[..|issued| - 1], ids, id);
    }
  }

  // ---------- Every step keeps each identifier honest ----------

  /** A timer is added. */
  ghost predicate Adds(s: State, s': State) {
    var id := s.core.nextId;
    && s'.fate == s.fate && s'.core.nextId == id + 1 && id in s'.core.timers
    && s'.core.timers == s.core.timers[id := s'.core.timers[id]]
    && s'.oneShots == if s'.core.timers[id].repeating then s.oneShots else s.oneShots + {id}
  }

  /** The timers `gone` are removed, and do not fire. */
  ghost predicate Removes(s: State, s': State, gone: set<nat>, f: Fate) {
    && gone <= s.core.timers.Keys && f != FiredOnce && s'.fate == Sentence(s.fate, gone, f)
    && s'.core.nextId == s.core.nextId && s'.core.timers == s.core.timers - gone && s'.oneShots == s.oneShots
  }

  lemma NothingRemoved(s: State)
    ensures Removes(s, s, {}, Cancelled)
  {
    assert Sentence(s.fate, {}, Cancelled) == s.fate && s.core.timers - {} == s.core.timers;
  }

  lemma AddEffect(s: State, i: nat, call: Call, now: int)
    requires i < |s.clients| && call.Add?
    ensures var s' := CallStep(s, i, call, now); s'.issued == s.issued && (s' == s || Adds(s, s'))
  {
    assert s.oneShots + {} == s.oneShots;
  }

  lemma CancelEffect(s: State, i: nat, id: nat, now: int)
    requires i < |s.clients|
    ensures var s' := CallStep(s, i, Cancel(id), now);
            s'.issued == s.issued && (s' == s || Removes(s, s', {id}, Cancelled))
  {
  }

  /** Cancelling everything and shutting down. */
  lemma RemovalOfAll(s: State, i: nat, call: Call, now: int, f: Fate)
    requires i < |s.clients| && (call.CancelAll? || call.Shutdown?)
    requires f == if call.Shutdown? then Dropped else Cancelled
    ensures var s' := CallStep(s, i, call, now);
            s'.issued == s.issued && Removes(s, s', s.core.timers.Keys, f)
  {
    AllGone(s.core.timers);
  }

  lemma AllGone<V>(m: map<nat, V>)
    ensures m - m.Keys == map[]
  {
  }

  /** What a call can do to the timers and their history. */
  lemma CallEffect(s: State, i: nat, call: Call, now: int) returns (gone: set<nat>, f: Fate)
    requires i < |s.clients|
    ensures CallStep(s, i, call, now).issued == s.issued
    ensures Adds(s, CallStep(s, i, call, now)) || Removes(s, CallStep(s, i, call, now), gone, f)
  {
    gone, f := {}, Cancelled;
    NothingRemoved(s);
    match call
    case Add(_, _, _, _) => AddEffect(s, i, call, now);
    case Cancel(id) =>
      CancelEffect(s, i, id, now);
      if CallStep(s, i, call, now) != s { gone := {id}; }
    case CancelAll =>
      gone := s.core.timers.Keys;
      RemovalOfAll(s, i, call, now, f);
    case Shutdown =>
      gone, f := s.core.timers.Keys, Dropped;
      RemovalOfAll(s, i, call, now, f);
  }

  lemma HonestCall(s: State, i: nat, call: Call, now: int, id: nat)
    requires Inv(s) && Honest(s, id) && i < |s.clients|
    ensures Honest(CallStep(s, i, call, now), id)
  {
    var gone, f := CallEffect(s, i, call, now);
    HonestEffect(s, CallStep(s, i, call, now), gone, f, id);
  }

  lemma HonestEffect(s: State, s': State, gone: set<nat>, f: Fate, id: nat)
    requires Inv(s) && Honest(s, id) && s'.issued == s.issued && (Adds(s, s') || Removes(s, s', gone, f))
    ensures Honest(s', id)
  {
    assert s.core.timers.Keys !! s.fate.Keys && (id in s.fate ==> id in Issued(s.core.nextId));
  }

  lemma HonestDrain(s: State, later: int, batch: seq<nat>, id: nat)
    requires Inv(s) && Honest(s, id) && IsDueList(s.core.timers, later, batch)
    ensures Honest(DrainStep(s, later, batch), id)
  {
    assert s.core.timers.Keys !! s.fate.Keys;
    FiredByDrain(s.core.timers, batch, id);
    CountConcat(s.issued, Firings(s.core.timers, batch), (f: Firing) => Of(f, id));
    assert id in batch ==> IsDue(s.core.timers, later, id);
    assert id in s.core.timers ==> id < s.core.nextId;
  }

  /** The other steps leave the timers and what is remembered of them alone. */
  ghost predicate SameOrders(s: State, s': State) {
    && s'.core == s.core && s'.fate == s.fate && s'.oneShots == s.oneShots && s'.orders == s.orders
    && s'.issued == s.issued && s'.issuedAt == s.issuedAt
  }

  lemma StepCases(s: State, a: Action)
    ensures SameOrders(s, Step(s, a)) ||
            (a.ByClient? && a.i < |s.clients| && s.clients[a.i].Idle? && Step(s, a) == CallStep(s, a.i, a.call, a.now)) ||
            (a.ByScheduler? && IsDueList(s.core.timers, a.later, a.batch) && Step(s, a) == DrainStep(s, a.later, a.batch))
  {
    match a
    case ByClient(i, call, now) =>
      if i < |s.clients| { BusyClient(s, i, call, now); }
    case ByScheduler(now, later, wake, batch) =>
      if s.scheduler.Looking? { LookCases(s, now, later, wake, batch); }
    case ByWorker(i) =>
      if i < |s.workers| { WorkerFrame(s, i); }
  }

  lemma StepHonest(s: State, a: Action, id: nat)
    requires Inv(s) && Honest(s, id)
    ensures Honest(Step(s, a), id)
  {
    StepCases(s, a);
    if !SameOrders(s, Step(s, a)) {
      if a.ByClient? {
        HonestCall(s, a.i, a.call, a.now, id);
      } else {
        HonestDrain(s, a.later, a.batch, id);
      }
    }
  }

  /** The firings of one-shots are as many as the timers with that fate. */
  ghost predicate OneShotsCounted(s: State) {
    FiredAmong(s.issued, s.oneShots) == |WithFate(s.fate, FiredOnce)|
  }

  lemma CallCounted(s: State, i: nat, call: Call, now: int)
    requires Inv(s) && OneShotsCounted(s) && Honest(s, s.core.nextId) && i < |s.clients|
    ensures OneShotsCounted(CallStep(s, i, call, now))
  {
    var gone, f := CallEffect(s, i, call, now);
    EffectCounted(s, CallStep(s, i, call, now), gone, f);
  }

  lemma EffectCounted(s: State, s': State, gone: set<nat>, f: Fate)
    requires Inv(s) && OneShotsCounted(s) && Honest(s, s.core.nextId)
    requires s'.issued == s.issued && (Adds(s, s') || Removes(s, s', gone, f))
    ensures OneShotsCounted(s')
  {
    if Adds(s, s') {
      AmongMore(s.issued, s.oneShots, s.core.nextId);
    } else {
      assert s.core.timers.Keys !! s.fate.Keys;
      SentenceFates(s.fate, gone, f);
    }
  }

  lemma DrainCounted(s: State, later: int, batch: seq<nat>)
    requires Inv(s) && OneShotsCounted(s) && IsDueList(s.core.timers, later, batch)
    requires forall id :: id in s.core.timers ==> (id in s.oneShots <==> !s.core.timers[id].repeating)
    ensures OneShotsCounted(DrainStep(s, later, batch))
  {
    hide Fire, Firings, Count, Sentence, WithFate, InOrder, WakesInTime, Delivery, WorkersWake, ShutdownOrder;
    var timers, gone := s.core.timers, OneShots(s.core.timers, batch);
    assert forall id :: id in batch ==> IsDue(timers, later, id);
    OneShotsOfDrain(timers, batch, s.oneShots);
    CountConcat(s.issued, Firings(timers, batch), (f: Firing) => f.id in s.oneShots);
    assert gone <= timers.Keys;
    FateCount(s.fate, gone, FiredOnce);
  }

  lemma StepCounted(s: State, a: Action)
    requires Inv(s) && OneShotsCounted(s) && forall id: nat :: Honest(s, id)
    ensures OneShotsCounted(Step(s, a))
  {
    StepCases(s, a);
    if !SameOrders(s, Step(s, a)) {
      if a.ByClient? {
        assert Honest(s, s.core.nextId);
        CallCounted(s, a.i, a.call, a.now);
      } else {
        forall id | id in s.core.timers ensures id in s.oneShots <==> !s.core.timers[id].repeating {
          assert Honest(s, id);
        }
        DrainCounted(s, a.later, a.batch);
      }
    }
  }

  lemma {:induction false} RunHonest(clients: nat, workers: nat, run: seq<Action>, id: nat)
    ensures Honest(Exec(Init(clients, workers), run), id)
  {
    if run != [] {
      RunHonest(clients, workers, run[..|run| - 1], id);
      StepHonest(Reached(clients, workers, run[..|run| - 1]), run[|run| - 1], id);
    }
  }

  lemma {:induction false} RunCounted(clients: nat, workers: nat, run: seq<Action>)
    ensures OneShotsCounted(Exec(Init(clients, workers), run))
  {
    if run == [] {
      assert WithFate(map[], FiredOnce) == {};
    } else {
      var before := run[..|run| - 1];
      RunCounted(clients, workers, before);
      forall id: nat ensures Honest(Exec(Init(clients, workers), before), id) {
        RunHonest(clients, workers, before, id);
      }
      StepCounted(Reached(clients, workers, before), run[|run| - 1]);
    }
  }

  // ---------- Main results over every run ----------

  /**
   A one-shot fires exactly once if its fate is to have fired, and not at all while it is live or when it was
   cancelled or dropped; a repeating timer never meets that fate.
   */
  lemma OneShotsFireOnce(clients: nat, workers: nat, run: seq<Action>, id: nat)
    ensures var s := Exec(Init(clients, workers), run);
            && (id in s.fate && s.fate[id] == FiredOnce ==> id in s.oneShots && Fired(s.issued, id) == 1)
            && (id in s.oneShots && (id !in s.fate || s.fate[id] != FiredOnce) ==>
                  forall k :: 0 <= k < |s.issued| ==> s.issued[k].id != id)
            && (id in s.core.timers ==> (id in s.oneShots <==> !s.core.timers[id].repeating))
  {
    var s := Reached(clients, workers, run);
    RunHonest(clients, workers, run, id);
    NeverFired(s.issued, id);
    assert s.core.timers.Keys !! s.fate.Keys;
  }

  /**
   Every issued identifier is live or has met exactly one fate, and the statistics count them: what was scheduled is
   live, cancelled, a one-shot whose callback was issued, or dropped.
   */
  lemma EveryTimerIsAccountedFor(clients: nat, workers: nat, run: seq<Action>)
    ensures var s := Exec(Init(clients, workers), run);
            && (forall id :: INVALID_TIMER_ID < id < s.core.nextId <==> id in s.core.timers || id in s.fate)
            && (forall id :: !(id in s.core.timers && id in s.fate))
            && s.core.scheduled == |s.core.timers| + s.core.cancelled + FiredAmong(s.issued, s.oneShots)
                                   + |WithFate(s.fate, Dropped)|
  {
    var s := Reached(clients, workers, run);
    RunCounted(clients, workers, run);
    IssuedCount(s.core.nextId);
    var live, dead := s.core.timers.Keys, s.fate.Keys;
    assert |live + dead| == |live| + |dead| && |live| == |s.core.timers|;
    FateParts(s.fate);
  }

  lemma {:induction false} IssuedCount(next: nat)
    requires next > 0
    ensures |Issued(next)| == next - 1
  {
    if next > 1 { IssuedCount(next - 1); }
  }

  lemma FateParts(fate: map<nat, Fate>)
    ensures |fate.Keys| == |WithFate(fate, Cancelled)| + |WithFate(fate, FiredOnce)| + |WithFate(fate, Dropped)|
  {
    var c, f, d := WithFate(fate, Cancelled), WithFate(fate, FiredOnce), WithFate(fate, Dropped);
    assert fate.Keys == c + f + d;
    assert c !! f && (c + f) !! d;
  }
}
