/** What the timer promises in every interleaving of scheduler, workers and clients. */
module TimerTheorems {
  import opened Common
  import opened TimerModel
  import opened TimerRuns

  // ---------- Identifiers ----------

  lemma SentenceFates(fate: map<nat, Fate>, gone: set<nat>, f: Fate)
    requires gone !! fate.Keys
    ensures WithFate(Sentence(fate, gone, f), f) == WithFate(fate, f) + gone
    ensures forall f' :: f' != f ==> WithFate(Sentence(fate, gone, f), f') == WithFate(fate, f')
  {
  }

  lemma FateCount(fate: map<nat, Fate>, gone: set<nat>, f: Fate)
    requires gone !! fate.Keys
    ensures |WithFate(Sentence(fate, gone, f), f)| == |WithFate(fate, f)| + |gone|
  {
    SentenceFates(fate, gone, f);
    assert WithFate(fate, f) !! gone;
  }

  lemma LedgerMove(live: set<nat>, fate: map<nat, Fate>, next: nat, gone: set<nat>, f: Fate)
    requires Ledger(live, fate, next) && gone <= live
    ensures Ledger(live - gone, Sentence(fate, gone, f), next)
  {
    assert Sentence(fate, gone, f).Keys == fate.Keys + gone;
    assert (live - gone) + (fate.Keys + gone) == live + fate.Keys;
  }

  lemma LedgerIssue(live: set<nat>, fate: map<nat, Fate>, next: nat)
    requires Ledger(live, fate, next) && next > 0
    ensures Ledger(live + {next}, fate, next + 1)
  {
    assert next !in live + fate.Keys;
    assert live + {next} + fate.Keys == Issued(next) + {next};
  }

  lemma SectionKeys(c: Core, now: int, call: Call)
    ensures call.Add? && !c.shuttingDown ==>
              AddSection(c, now, call.deadline, call.interval, call.repeating, call.callback).0.timers.Keys
              == c.timers.Keys + {c.nextId}
    ensures call.Cancel? && CancelSection(c, call.id).1 ==>
              CancelSection(c, call.id).0.timers.Keys == c.timers.Keys - {call.id}
    ensures CancelAllSection(c).0.timers.Keys == ShutdownSection(c).timers.Keys == c.timers.Keys - c.timers.Keys
    ensures |c.timers| == |c.timers.Keys|
  {
  }

  lemma AddPartition(s: State, i: nat, call: Call, now: int)
    requires s.core.nextId > 0 && Partition(s) && i < |s.clients| && call.Add?
    ensures Partition(CallStep(s, i, call, now))
  {
    LedgerIssue(s.core.timers.Keys, s.fate, s.core.nextId);
    SectionKeys(s.core, now, call);
  }

  lemma RemovalPartition(s: State, s': State, gone: set<nat>, f: Fate)
    requires Partition(s) && gone <= s.core.timers.Keys
    requires s'.core.timers.Keys == s.core.timers.Keys - gone && s'.fate == Sentence(s.fate, gone, f)
    requires s'.core.nextId == s.core.nextId && s'.core.scheduled == s.core.scheduled
    requires s'.core.cancelled == s.core.cancelled + if f == Cancelled then |gone| else 0
    ensures Partition(s')
  {
    LedgerMove(s.core.timers.Keys, s.fate, s.core.nextId, gone, f);
    FateCount(s.fate, gone, f);
    SentenceFates(s.fate, gone, f);
  }

  lemma CallPartition(s: State, i: nat, call: Call, now: int)
    requires s.core.nextId > 0 && Partition(s) && i < |s.clients|
    ensures Partition(CallStep(s, i, call, now))
  {
    SectionKeys(s.core, now, call);
    var s', all := CallStep(s, i, call, now), s.core.timers.Keys;
    match call
    case Add(_, _, _, _) => AddPartition(s, i, call, now);
    case Cancel(id) =>
      if CancelSection(s.core, id).1 { RemovalPartition(s, s', {id}, Cancelled); }
    case CancelAll => RemovalPartition(s, s', all, Cancelled);
    case Shutdown => RemovalPartition(s, s', all, Dropped);
  }

  lemma FiredKeys(timers: map<nat, TimerEntry>, ids: seq<nat>, now: int)
    ensures Fire(timers, ids, now).Keys == timers.Keys - OneShots(timers, ids)
    ensures OneShots(timers, ids) <= timers.Keys
  {
  }

  lemma DrainPartition(s: State, later: int, batch: seq<nat>)
    requires Partition(s)
    ensures Partition(DrainStep(s, later, batch))
  {
    var gone := OneShots(s.core.timers, batch);
    FiredKeys(s.core.timers, batch, later);
    LedgerMove(s.core.timers.Keys, s.fate, s.core.nextId, gone, FiredOnce);
    SentenceFates(s.fate, gone, FiredOnce);
  }

  /** A look at the timers changes nothing but the scheduler, or drains the due list. */
  lemma LookCases(s: State, now: int, later: int, wake: int, batch: seq<nat>)
    ensures var s' := LookStep(s, now, later, wake, batch);
            s' == s.(scheduler := s'.scheduler) ||
            (s' == DrainStep(s, later, batch) && IsDueList(s.core.timers, later, batch))
  {
  }

  lemma CallWellFormed(s: State, i: nat, call: Call, now: int)
    requires WellFormed(s.core) && i < |s.clients|
    ensures WellFormed(CallStep(s, i, call, now).core)
  {
  }

  lemma LookKeepsPartition(s: State, now: int, later: int, wake: int, batch: seq<nat>)
    requires WellFormed(s.core) && Partition(s)
    ensures WellFormed(LookStep(s, now, later, wake, batch).core) && Partition(LookStep(s, now, later, wake, batch))
  {
    LookCases(s, now, later, wake, batch);
    DrainPartition(s, later, batch);
    if IsDueList(s.core.timers, later, batch) { NothingStaysDue(s.core, later, batch); }
  }

  ghost predicate Books(s: State) { WellFormed(s.core) && Partition(s) }

  lemma SameBooks(s: State, s': State)
    requires Books(s) && s'.core == s.core && s'.fate == s.fate
    ensures Books(s')
  {
  }

  lemma CallBooks(s: State, i: nat, call: Call, now: int)
    requires Books(s) && i < |s.clients|
    ensures Books(CallStep(s, i, call, now))
  {
    CallPartition(s, i, call, now);
    CallWellFormed(s, i, call, now);
  }

  lemma BusyClient(s: State, i: nat, call: Call, now: int)
    requires i < |s.clients|
    ensures s.clients[i].Idle? ==> ClientStep(s, i, call, now) == CallStep(s, i, call, now)
    ensures !s.clients[i].Idle? ==> SameHistory(s, ClientStep(s, i, call, now))
  {
    hide FinishStep, CallStep;
    if !s.clients[i].Idle? { FinishKeeps(s, i); }
  }

  lemma FinishKeeps(s: State, i: nat)
    requires i < |s.clients| && !s.clients[i].Idle?
    ensures SameHistory(s, FinishStep(s, i))
  {
    hide WakeScheduler, WakeWorkers;
    match s.clients[i]
    case Notifying => WakingKeeps(ClientGoto(s, i, Idle));
    case ShutNotifying => WakingKeeps(ClientGoto(s, i, JoiningScheduler));
    case StopNotifying => WakingKeeps(ClientGoto(s, i, JoiningWorkers));
    case _ =>
  }

  lemma WakingKeeps(s: State)
    ensures SameHistory(s, WakeScheduler(s)) && SameHistory(s, WakeWorkers(s))
    ensures WakeScheduler(s).clients == s.clients && WakeWorkers(s).clients == s.clients
  {
  }

  /** The timers and everything that is remembered of them, and the callback queue, are as before. */
  ghost predicate SameHistory(s: State, s': State) {
    && s'.core == s.core && s'.fate == s.fate && s'.oneShots == s.oneShots && s'.orders == s.orders
    && s'.issued == s.issued && s'.issuedAt == s.issuedAt && s'.dequeued == s.dequeued && s'.ready == s.ready
    && InHand(s') == InHand(s)
  }

  lemma BusyScheduler(s: State, now: int, later: int, wake: int, batch: seq<nat>)
    ensures s.scheduler.Looking? ==>
              SchedulerStep(s, now, later, wake, batch) == LookStep(s, now, later, wake, batch)
    ensures !s.scheduler.Looking? ==>
              SchedulerStep(s, now, later, wake, batch).core == s.core &&
              SchedulerStep(s, now, later, wake, batch).fate == s.fate
  {
  }

  /** Two states with the same timers and fates have the same books. */
  lemma BooksFrom(s: State, called: State, s': State)
    requires Books(s) && Books(called) && ((s'.core == s.core && s'.fate == s.fate) || s' == called)
    ensures Books(s')
  {
  }

  lemma ClientBooks(s: State, i: nat, call: Call, now: int)
    requires Books(s) && i < |s.clients|
    ensures Books(ClientStep(s, i, call, now))
  {
    CallBooks(s, i, call, now);
    BusyClient(s, i, call, now);
    BooksFrom(s, CallStep(s, i, call, now), ClientStep(s, i, call, now));
  }

  lemma SchedulerBooks(s: State, now: int, later: int, wake: int, batch: seq<nat>)
    requires Books(s)
    ensures Books(SchedulerStep(s, now, later, wake, batch))
  {
    LookKeepsPartition(s, now, later, wake, batch);
    BusyScheduler(s, now, later, wake, batch);
    BooksFrom(s, LookStep(s, now, later, wake, batch), SchedulerStep(s, now, later, wake, batch));
  }

  // ---------- Sleeping ----------

  lemma ClientSleep(s: State, i: nat, call: Call, now: int)
    requires WakesInTime(s) && i < |s.clients|
    ensures WakesInTime(ClientStep(s, i, call, now))
  {
    hide CallStep, FinishStep;
    if s.clients[i].Idle? { CallSleep(s, i, call, now); } else { FinishSleep(s, i); }
  }

  lemma CallSleep(s: State, i: nat, call: Call, now: int)
    requires WakesInTime(s) && i < |s.clients|
    ensures WakesInTime(CallStep(s, i, call, now))
  {
    var s' := CallStep(s, i, call, now);
    assert s' == s || PendingNotify(s'.clients[i]);
  }

  lemma FinishSleep(s: State, i: nat)
    requires WakesInTime(s) && i < |s.clients| && !s.clients[i].Idle?
    ensures WakesInTime(FinishStep(s, i))
  {
    var s' := FinishStep(s, i);
    if !PendingNotify(s.clients[i]) && SomePendingNotify(s) {
      var j :| 0 <= j < |s.clients| && PendingNotify(s.clients[j]);
      assert PendingNotify(s'.clients[j]);
    }
  }

  lemma LookSleep(s: State, now: int, later: int, wake: int, batch: seq<nat>)
    ensures WakesInTime(LookStep(s, now, later, wake, batch)) || s.scheduler.Sleeping?
  {
  }

  // ---------- Delivery of callbacks ----------

  /** A call's critical section touches timers, counters and fates, and the caller's own program counter. */
  lemma CallFrame(s: State, i: nat, call: Call, now: int)
    requires i < |s.clients|
    ensures var s' := CallStep(s, i, call, now);
            && s'.issued == s.issued && s'.dequeued == s.dequeued && s'.ready == s.ready && s'.scheduler == s.scheduler
            && s'.workers == s.workers && s'.stopping == s.stopping && s'.core.fired == s.core.fired
            && (s'.clients == s.clients || s'.clients == s.clients[i := Notifying] || s'.clients == s.clients[i := ShutNotifying])
  {
  }

  lemma CallDelivery(s: State, i: nat, call: Call, now: int)
    requires i < |s.clients|
    ensures var s' := ClientStep(s, i, call, now);
            && s'.issued == s.issued && s'.dequeued == s.dequeued && s'.ready == s.ready
            && InHand(s') == InHand(s) && s'.core.fired == s.core.fired
  {
    hide ClientStep, CallStep;
    BusyClient(s, i, call, now);
    CallFrame(s, i, call, now);
  }

  lemma SchedulerDelivery(s: State, now: int, later: int, wake: int, batch: seq<nat>)
    requires Delivery(s)
    ensures Delivery(SchedulerStep(s, now, later, wake, batch))
  {
    if s.scheduler.Looking? {
      LookCases(s, now, later, wake, batch);
      LookHand(s, now, later, wake, batch);
      assert s.dequeued + s.ready + [] + Firings(s.core.timers, batch) ==
             s.dequeued + s.ready + Firings(s.core.timers, batch);
    } else if s.scheduler.Handing? {
      assert s.dequeued + s.ready + s.scheduler.batch == s.dequeued + (s.ready + s.scheduler.batch) + [];
    }
  }

  lemma LookHand(s: State, now: int, later: int, wake: int, batch: seq<nat>)
    requires s.scheduler.Looking?
    ensures var s' := LookStep(s, now, later, wake, batch);
            s' == DrainStep(s, later, batch) || (s' == s.(scheduler := s'.scheduler) && InHand(s') == [])
  {
  }

  lemma WorkerDelivery(s: State, i: nat)
    requires Delivery(s) && i < |s.workers|
    ensures Delivery(WorkerStep(s, i))
  {
    if s.workers[i].Checking? && s.ready != [] {
      assert s.dequeued + s.ready == (s.dequeued + [s.ready[0]]) + s.ready[1..];
    }
  }

  // ---------- Workers and shutdown ----------

  lemma ClientWorkers(s: State, i: nat, call: Call, now: int)
    requires WorkersWake(s) && i < |s.clients|
    ensures WorkersWake(ClientStep(s, i, call, now))
  {
    hide CallStep, FinishStep;
    if s.clients[i].Idle? {
      CallFrame(s, i, call, now);
      NotifyingKept(s, CallStep(s, i, call, now), i);
    } else {
      FinishWorkers(s, i);
    }
  }

  /** One client moves, and not from an announcement to the workers. */
  lemma NotifyingKept(s: State, s': State, i: nat)
    requires i < |s.clients| == |s'.clients| && s'.clients == s.clients[i := s'.clients[i]] && !s.clients[i].StopNotifying?
    ensures SomeStopNotifying(s) ==> SomeStopNotifying(s')
  {
    if SomeStopNotifying(s) {
      var j :| 0 <= j < |s.clients| && s.clients[j].StopNotifying?;
      assert s'.clients[j].StopNotifying?;
    }
  }

  lemma FinishWorkers(s: State, i: nat)
    requires WorkersWake(s) && i < |s.clients| && !s.clients[i].Idle?
    ensures WorkersWake(FinishStep(s, i))
  {
    var s' := FinishStep(s, i);
    if s.clients[i].Stopping? {
      assert s'.clients[i].StopNotifying?;
    } else if !s.clients[i].StopNotifying? {
      hide SomeStopNotifying;
      NotifyingKept(s, s', i);
    }
  }

  lemma SchedulerWorkers(s: State, now: int, later: int, wake: int, batch: seq<nat>)
    requires WorkersWake(s)
    ensures WorkersWake(SchedulerStep(s, now, later, wake, batch))
  {
    if s.scheduler.Looking? { LookCases(s, now, later, wake, batch); }
  }

  lemma LookShutdown(s: State, now: int, later: int, wake: int, batch: seq<nat>)
    requires s.scheduler.Looking?
    ensures var s' := LookStep(s, now, later, wake, batch);
            s'.clients == s.clients && s'.workers == s.workers && s'.ready == s.ready && s'.stopping == s.stopping
  {
  }

  lemma SchedulerShutdown(s: State, now: int, later: int, wake: int, batch: seq<nat>)
    requires ShutdownOrder(s)
    ensures ShutdownOrder(SchedulerStep(s, now, later, wake, batch))
  {
    if s.scheduler.Looking? { LookShutdown(s, now, later, wake, batch); }
  }

  /** One client moves; no worker starts or ends. */
  lemma OrderKept(s: State, s': State, i: nat)
    requires ShutdownOrder(s) && i < |s.clients| == |s'.clients| && |s.workers| == |s'.workers|
    requires forall j :: 0 <= j < |s.clients| && j != i ==> s'.clients[j] == s.clients[j]
    requires forall w :: 0 <= w < |s.workers| ==> (s'.workers[w].Exited? <==> s.workers[w].Exited?)
    requires s.scheduler.Gone? ==> s'.scheduler.Gone?
    requires s'.ready == s.ready && (s.stopping ==> s'.stopping) && (s'.stopping ==> s'.scheduler.Gone?)
    requires AfterSchedulerJoin(s'.clients[i]) ==> s'.scheduler.Gone?
    requires s'.clients[i].Returned? ==> forall w :: 0 <= w < |s.workers| ==> s.workers[w].Exited?
    ensures ShutdownOrder(s')
  {
  }

  lemma CallShutdown(s: State, i: nat, call: Call, now: int)
    requires ShutdownOrder(s) && i < |s.clients| && s.clients[i].Idle?
    ensures ShutdownOrder(CallStep(s, i, call, now))
  {
    var s' := CallStep(s, i, call, now);
    CallFrame(s, i, call, now);
    assert s'.clients[i] in {Idle, Notifying, ShutNotifying};
    OrderKept(s, s', i);
  }

  lemma ClientShutdown(s: State, i: nat, call: Call, now: int)
    requires ShutdownOrder(s) && i < |s.clients|
    ensures ShutdownOrder(ClientStep(s, i, call, now))
  {
    hide CallStep, FinishStep;
    if s.clients[i].Idle? { CallShutdown(s, i, call, now); } else { FinishShutdown(s, i); }
  }

  /** What is left of a call moves its own client, and wakes workers or the scheduler; it ends nobody. */
  ghost predicate Finishes(s: State, i: nat, s': State)
    requires i < |s.clients|
  {
    && |s'.clients| == |s.clients| && s'.clients == s.clients[i := s'.clients[i]] && |s'.workers| == |s.workers|
    && (forall w :: 0 <= w < |s.workers| ==> (s'.workers[w].Exited? <==> s.workers[w].Exited?))
    && s'.ready == s.ready && (s.scheduler.Gone? ==> s'.scheduler.Gone?)
    && s'.stopping == (s.stopping || s.clients[i].Stopping?)
    && (AfterSchedulerJoin(s'.clients[i]) ==> AfterSchedulerJoin(s.clients[i]) || s.scheduler.Gone?)
    && (s'.clients[i].Returned? ==> s.clients[i].Returned? || forall w :: 0 <= w < |s.workers| ==> s.workers[w].Exited?)
  }

  lemma FinishFrame(s: State, i: nat)
    requires i < |s.clients| && !s.clients[i].Idle?
    ensures Finishes(s, i, FinishStep(s, i))
  {
    hide WakeScheduler, WakeWorkers;
    match s.clients[i]
    case Notifying => WakingFrame(ClientGoto(s, i, Idle));
    case ShutNotifying => WakingFrame(ClientGoto(s, i, JoiningScheduler));
    case StopNotifying => WakingFrame(ClientGoto(s, i, JoiningWorkers));
    case _ =>
  }

  lemma WakingFrame(s: State)
    ensures WakeScheduler(s) == s.(scheduler := WakeScheduler(s).scheduler)
    ensures s.scheduler.Gone? ==> WakeScheduler(s).scheduler.Gone?
    ensures WakeWorkers(s) == s.(workers := WakeWorkers(s).workers) && |WakeWorkers(s).workers| == |s.workers|
    ensures forall w :: 0 <= w < |s.workers| ==> (WakeWorkers(s).workers[w].Exited? <==> s.workers[w].Exited?)
  {
  }

  lemma FinishShutdown(s: State, i: nat)
    requires ShutdownOrder(s) && i < |s.clients| && !s.clients[i].Idle?
    ensures ShutdownOrder(FinishStep(s, i))
  {
    hide FinishStep;
    FinishFrame(s, i);
    OrderKept(s, FinishStep(s, i), i);
  }

  lemma WorkerShutdown(s: State, i: nat)
    requires ShutdownOrder(s) && WorkersWake(s) && i < |s.workers|
    ensures ShutdownOrder(WorkerStep(s, i)) && WorkersWake(WorkerStep(s, i))
  {
    assert SomeStopNotifying(WorkerStep(s, i)) == SomeStopNotifying(s);
  }

  lemma ClientInv(s: State, i: nat, call: Call, now: int)
    requires Inv(s) && i < |s.clients|
    ensures Inv(ClientStep(s, i, call, now))
  {
    ClientBooks(s, i, call, now);
    ClientSleep(s, i, call, now);
    CallDelivery(s, i, call, now);
    ClientWorkers(s, i, call, now);
    ClientShutdown(s, i, call, now);
  }

  lemma SchedulerInv(s: State, now: int, later: int, wake: int, batch: seq<nat>)
    requires Inv(s)
    ensures Inv(SchedulerStep(s, now, later, wake, batch))
  {
    SchedulerBooks(s, now, later, wake, batch);
    SchedulerSleep(s, now, later, wake, batch);
    SchedulerDelivery(s, now, later, wake, batch);
    SchedulerWorkers(s, now, later, wake, batch);
    SchedulerShutdown(s, now, later, wake, batch);
  }

  lemma SchedulerSleep(s: State, now: int, later: int, wake: int, batch: seq<nat>)
    ensures WakesInTime(SchedulerStep(s, now, later, wake, batch))
  {
    if s.scheduler.Looking? { LookSleep(s, now, later, wake, batch); }
  }

  lemma WorkerFrame(s: State, i: nat)
    requires i < |s.workers|
    ensures var s' := WorkerStep(s, i);
            s' == s.(workers := s'.workers, ready := s'.ready, dequeued := s'.dequeued) && |s'.workers| == |s.workers|
  {
  }

  lemma WorkerInv(s: State, i: nat)
    requires Inv(s) && i < |s.workers|
    ensures Inv(WorkerStep(s, i))
  {
    hide WorkerStep;
    WorkerFrame(s, i);
    SameBooks(s, WorkerStep(s, i));
    WorkerDelivery(s, i);
    WorkerShutdown(s, i);
    assert SomePendingNotify(WorkerStep(s, i)) == SomePendingNotify(s);
  }

  lemma StepInv(s: State, a: Action)
    requires Inv(s)
    ensures Inv(Step(s, a))
  {
    match a
    case ByClient(i, call, now) =>
      if i < |s.clients| {
        assert Step(s, a) == ClientStep(s, i, call, now);
        ClientInv(s, i, call, now);
      }
    case ByScheduler(now, later, wake, batch) =>
      assert Step(s, a) == SchedulerStep(s, now, later, wake, batch);
      SchedulerInv(s, now, later, wake, batch);
    case ByWorker(i) =>
      if i < |s.workers| {
        assert Step(s, a) == WorkerStep(s, i);
        WorkerInv(s, i);
      }
  }

  lemma {:induction false} ExecInv(s: State, run: seq<Action>)
    requires Inv(s)
    ensures Inv(Exec(s, run))
  {
    if run != [] {
      ExecInv(s, run[..|run| - 1]);
      StepInv(Exec(s, run[..|run| - 1]), run[|run| - 1]);
    }
  }

  lemma InitInv(clients: nat, workers: nat)
    ensures Inv(Init(clients, workers))
  {
    assert Issued(1) == {};
    assert WithFate(map[], Cancelled) == {};
  }

  /** Whatever the clock says, a scheduler that looks at the timers has a step to take. */
  lemma SchedulerIsNeverStuck(s: State, now: int, later: int) returns (wake: int, batch: seq<nat>)
    requires s.scheduler.Looking? && now <= later
    ensures !LookStep(s, now, later, wake, batch).scheduler.Looking?
  {
    var timers := s.core.timers;
    wake := 0;
    if timers != map[] {
      assert timers.Keys != {};
      var first := FirstOf(timers, timers.Keys);
      wake := timers[first].deadline;
      assert wake <= now ==> IsDue(timers, now, first);
      assert IsEarliest(timers, wake);
    }
    var due := set id | id in timers && timers[id].deadline <= later;
    batch := ListOf(timers, due);
    assert IsDueList(timers, later, batch);
  }

  // ---------- Main results over every run ----------

  ghost function Reached(clients: nat, workers: nat, run: seq<Action>): (s: State)
    ensures Inv(s)
  {
    InitInv(clients, workers);
    ExecInv(Init(clients, workers), run);
    Exec(Init(clients, workers), run)
  }

  /**
   The scheduler never oversleeps: with no notification pending, a sleeping scheduler wakes at the latest at the
   earliest live deadline, and sleeps for good only when nothing is live.
   */
  lemma SchedulerNeverOversleeps(clients: nat, workers: nat, run: seq<Action>, id: nat)
    ensures var s := Exec(Init(clients, workers), run);
            s.scheduler.Sleeping? && !SomePendingNotify(s) ==>
              && !s.core.shuttingDown
              && (id in s.core.timers ==>
                    s.scheduler.until.Some? && s.scheduler.until.value <= s.core.timers[id].deadline)
  {
    var s := Reached(clients, workers, run);
  }

  /** A timer that is gone stays gone, keeps its fate, and is in no later drain. */
  ghost predicate StaysDead(s: State, s': State, id: nat) {
    && id in s.fate && id in s'.fate && s'.fate[id] == s.fate[id]
    && s.issued <= s'.issued
    && (forall k :: |s.issued| <= k < |s'.issued| ==> s'.issued[k].id != id)
  }

  lemma CallStaysDead(s: State, i: nat, call: Call, now: int, id: nat)
    requires Inv(s) && i < |s.clients| && id in s.fate
    ensures StaysDead(s, ClientStep(s, i, call, now), id)
  {
    assert id !in s.core.timers.Keys;
    var s' := ClientStep(s, i, call, now);
    ClientFates(s, i, call, now);
    assert s'.issued == s.issued;
  }

  /** A client changes the fate of timers that are live, only. */
  lemma ClientFates(s: State, i: nat, call: Call, now: int)
    requires i < |s.clients|
    ensures var s' := ClientStep(s, i, call, now);
            s'.issued == s.issued &&
            forall id :: id in s.fate && id !in s.core.timers ==> id in s'.fate && s'.fate[id] == s.fate[id]
  {
    hide ClientStep, CallStep;
    BusyClient(s, i, call, now);
    CallFates(s, i, call, now);
  }

  lemma CallFates(s: State, i: nat, call: Call, now: int)
    requires i < |s.clients|
    ensures var s' := CallStep(s, i, call, now);
            s'.issued == s.issued &&
            forall id :: id in s.fate && id !in s.core.timers ==> id in s'.fate && s'.fate[id] == s.fate[id]
  {
  }

  lemma LookStaysDead(s: State, now: int, later: int, wake: int, batch: seq<nat>, id: nat)
    requires Inv(s) && id in s.fate
    ensures StaysDead(s, LookStep(s, now, later, wake, batch), id)
  {
    assert id !in s.core.timers.Keys;
    LookCases(s, now, later, wake, batch);
    if IsDueList(s.core.timers, later, batch) { DrainStaysDead(s, later, batch, id); }
  }

  lemma DrainStaysDead(s: State, later: int, batch: seq<nat>, id: nat)
    requires id in s.fate && id !in s.core.timers && IsDueList(s.core.timers, later, batch)
    ensures StaysDead(s, DrainStep(s, later, batch), id)
  {
    assert !IsDue(s.core.timers, later, id);
    var firings := Firings(s.core.timers, batch);
    forall k | 0 <= k < |firings| ensures firings[k].id != id {
      assert batch[k] in batch;
    }
  }

  lemma SchedulerStaysDead(s: State, now: int, later: int, wake: int, batch: seq<nat>, id: nat)
    requires Inv(s) && id in s.fate
    ensures StaysDead(s, SchedulerStep(s, now, later, wake, batch), id)
  {
    if s.scheduler.Looking? { LookStaysDead(s, now, later, wake, batch, id); }
  }

  lemma StepStaysDead(s: State, a: Action, id: nat)
    requires Inv(s) && id in s.fate
    ensures StaysDead(s, Step(s, a), id)
  {
    match a
    case ByClient(i, call, now) => if i < |s.clients| { CallStaysDead(s, i, call, now, id); }
    case ByScheduler(now, later, wake, batch) => SchedulerStaysDead(s, now, later, wake, batch, id);
    case ByWorker(_) =>
  }

  lemma {:induction false} RunStaysDead(s: State, run: seq<Action>, id: nat)
    requires Inv(s) && id in s.fate
    ensures StaysDead(s, Exec(s, run), id)
  {
    if run != [] {
      var before := run[..|run| - 1];
      RunStaysDead(s, before, id);
      ExecInv(s, before);
      StepStaysDead(Exec(s, before), run[|run| - 1], id);
    }
  }

  /**
   Once a timer was cancelled, fired as a one-shot or dropped by a shutdown, it never fires again in any
   continuation, and cancelling it again fails.  So `cancel` succeeds at most once per identifier.
   */
  lemma DeadTimersStayDead(clients: nat, workers: nat, run: seq<Action>, later: seq<Action>, id: nat)
    requires id in Exec(Init(clients, workers), run).fate
    ensures var s := Exec(Init(clients, workers), run);
            var s' := Exec(s, later);
            && (forall k :: |s.issued| <= k < |s'.issued| ==> s'.issued[k].id != id)
            && id !in s'.core.timers
            && !CancelSection(s'.core, id).1
            && id in s'.fate && s'.fate[id] == s.fate[id]
  {
    var s := Reached(clients, workers, run);
    RunStaysDead(s, later, id);
    ExecInv(s, later);
    assert id !in Exec(s, later).core.timers.Keys;
  }

  /**
   Callbacks are delivered in the order in which drains issued them: at every moment the issued firings are those
   dequeued, then those queued, then the batch in the scheduler's hand.  `fired` counts them.
   */
  lemma CallbacksAreDeliveredInOrder(clients: nat, workers: nat, run: seq<Action>)
    ensures var s := Exec(Init(clients, workers), run);
            s.issued == s.dequeued + s.ready + InHand(s) && |s.issued| == s.core.fired
  {
    var s := Reached(clients, workers, run);
  }

  /** When shutdown returns, everything that ever fired has been dequeued, exactly once and in order. */
  lemma ShutdownDeliversEverything(clients: nat, workers: nat, run: seq<Action>, i: nat)
    requires workers > 0
    requires i < |Exec(Init(clients, workers), run).clients| && Exec(Init(clients, workers), run).clients[i].Returned?
    ensures var s := Exec(Init(clients, workers), run);
            s.dequeued == s.issued && s.ready == [] && |s.dequeued| == s.core.fired
  {
    var s := Reached(clients, workers, run);
    RunWorkers(Init(clients, workers), run);
    assert s.workers[0].Exited?;
    assert s.dequeued + [] + [] == s.dequeued;
  }

  lemma {:induction false} RunWorkers(s: State, run: seq<Action>)
    ensures |Exec(s, run).workers| == |s.workers| && |Exec(s, run).clients| == |s.clients|
  {
    if run != [] {
      RunWorkers(s, run[..|run| - 1]);
      StepWorkers(Exec(s, run[..|run| - 1]), run[|run| - 1]);
    }
  }

  lemma StepWorkers(s: State, a: Action)
    ensures |Step(s, a).workers| == |s.workers| && |Step(s, a).clients| == |s.clients|
  {
    hide CallStep, FinishStep, SchedulerStep, WorkerStep;
    match a
    case ByClient(i, call, now) =>
      if i < |s.clients| {
        if s.clients[i].Idle? { CallFrame(s, i, call, now); } else { FinishFrame(s, i); }
      }
    case ByScheduler(now, later, wake, batch) => SchedulerFrame(s, now, later, wake, batch);
    case ByWorker(i) => if i < |s.workers| { WorkerFrame(s, i); }
  }

  lemma SchedulerFrame(s: State, now: int, later: int, wake: int, batch: seq<nat>)
    ensures var s' := SchedulerStep(s, now, later, wake, batch); s'.clients == s.clients && |s'.workers| == |s.workers|
  {
    hide LookStep;
    if s.scheduler.Looking? { LookShutdown(s, now, later, wake, batch); }
  }

  /** No callback waits behind a sleeping worker unless a notification is on its way. */
  lemma WorkersNeverOversleep(clients: nat, workers: nat, run: seq<Action>, w: nat)
    requires w < |Exec(Init(clients, workers), run).workers|
    ensures var s := Exec(Init(clients, workers), run);
            s.workers[w].Asleep? && (s.ready != [] || s.stopping) ==> s.scheduler.Announcing? || SomeStopNotifying(s)
  {
    var s := Reached(clients, workers, run);
  }
}
