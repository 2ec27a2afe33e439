/**
 The scheduler thread, the callback workers and any number of client threads, interleaved at their critical
 sections and notifications.

 The timers are seen as the plain map here; that the heap-indexed class takes the same decisions and performs the
 same sections is proved in `TimerScheduler`.
 */
module TimerRuns {
  import opened Common
  import opened TimerModel

  datatype SchedulerPc =
    | Looking                        // about to lock and look at the timers
    | Sleeping(until: Option<int>)   // in a wait on `timer_changed`
    | Handing(batch: seq<Firing>)    // about to lock the callback queue
    | Announcing                     // about to notify the workers
    | Gone

  datatype ClientPc =
    | Idle
    | Notifying          // changed the timers, about to notify the scheduler
    | ShutNotifying
    | JoiningScheduler
    | Stopping           // about to set callback_stopping
    | StopNotifying
    | JoiningWorkers
    | Returned

  datatype WorkerPc = Checking | Asleep | Running(f: Firing) | Exited

  /** How a timer left the live timers. */
  datatype Fate = Cancelled | FiredOnce | Dropped

  /** What a client asked for, and when. */
  datatype Order = Order(now: int, deadline: int, interval: int, repeating: bool, callback: Callback)

  /**
   The last six fields are history: the firings in the order of issue, the time of the drain that issued each, what was
   dequeued, how timers ended, the identifiers of one-shots, and what each identifier was asked to do.
   */
  datatype State = State(
    core: Core, scheduler: SchedulerPc, clients: seq<ClientPc>, workers: seq<WorkerPc>,
    ready: seq<Firing>, stopping: bool, issued: seq<Firing>, issuedAt: seq<int>, dequeued: seq<Firing>,
    fate: map<nat, Fate>, oneShots: set<nat>, orders: map<nat, Order>)

  datatype Call = Add(deadline: int, interval: int, repeating: bool, callback: Callback)
                | Cancel(id: nat) | CancelAll | Shutdown

  /**
   `now` and `later` are the scheduler's two clock readings, `wake` the time it would sleep until, and `batch` the
   list it would drain; a step whose guess does not fit the state does nothing.
   */
  datatype Action =
    | ByClient(i: nat, call: Call, now: int)
    | ByScheduler(now: int, later: int, wake: int, batch: seq<nat>)
    | ByWorker(i: nat)

  function Init(clients: nat, workers: nat): State {
    State(Core(map[], 1, false, 0, 0, 0), Looking, seq(clients, _ => Idle), seq(workers, _ => Checking),
          [], false, [], [], [], map[], {}, map[])
  }

  function OneShots(timers: map<nat, TimerEntry>, ids: seq<nat>): set<nat> {
    set id | id in ids && id in timers && !timers[id].repeating
  }

  function Sentence(fate: map<nat, Fate>, gone: set<nat>, f: Fate): map<nat, Fate> {
    fate + map id | id in gone :: f
  }

  function WakeScheduler(s: State): State {
    if s.scheduler.Sleeping? then s.(scheduler := Looking) else s
  }

  function WakeWorkers(s: State): State {
    s.(workers := seq(|s.workers|, i requires 0 <= i < |s.workers| => if s.workers[i].Asleep? then Checking else s.workers[i]))
  }

  function ClientGoto(s: State, i: nat, pc: ClientPc): State
    requires i < |s.clients|
  {
    s.(clients := s.clients[i := pc])
  }

  function CallStep(s: State, i: nat, call: Call, now: int): State
    requires i < |s.clients|
  {
    match call
    case Add(deadline, interval, repeating, callback) =>
      if s.core.shuttingDown || (repeating && interval <= 0) then s
      else ClientGoto(s, i, Notifying).(core := AddSection(s.core, now, deadline, interval, repeating, callback).0,
                                        oneShots := s.oneShots + (if repeating then {} else {s.core.nextId}),
                                        orders := s.orders[s.core.nextId := Order(now, deadline, interval, repeating, callback)])
    case Cancel(id) =>
      if CancelSection(s.core, id).1
      then ClientGoto(s, i, Notifying).(core := CancelSection(s.core, id).0, fate := Sentence(s.fate, {id}, Cancelled))
      else s
    case CancelAll =>
      ClientGoto(s, i, Notifying).(core := CancelAllSection(s.core).0, fate := Sentence(s.fate, s.core.timers.Keys, Cancelled))
    case Shutdown =>
      ClientGoto(s, i, ShutNotifying).(core := ShutdownSection(s.core), fate := Sentence(s.fate, s.core.timers.Keys, Dropped))
  }

  function ClientStep(s: State, i: nat, call: Call, now: int): State
    requires i < |s.clients|
  {
    if s.clients[i].Idle? then CallStep(s, i, call, now) else FinishStep(s, i)
  }

  /** What is left of a call after its critical section: notifications, and for a shutdown the waits. */
  function FinishStep(s: State, i: nat): State
    requires i < |s.clients| && !s.clients[i].Idle?
  {
    match s.clients[i]
    case Notifying => WakeScheduler(ClientGoto(s, i, Idle))
    case ShutNotifying => WakeScheduler(ClientGoto(s, i, JoiningScheduler))
    case JoiningScheduler => if s.scheduler.Gone? then ClientGoto(s, i, Stopping) else s
    case Stopping => ClientGoto(s, i, StopNotifying).(stopping := true)
    case StopNotifying => WakeWorkers(ClientGoto(s, i, JoiningWorkers))
    case JoiningWorkers =>
      if forall w :: 0 <= w < |s.workers| ==> s.workers[w].Exited? then ClientGoto(s, i, Returned) else s
    case Returned => s
  }

  function DrainStep(s: State, later: int, batch: seq<nat>): State {
    var firings := Firings(s.core.timers, batch);
    s.(core := DrainSection(s.core, batch, later), scheduler := Handing(firings), issued := s.issued + firings,
       issuedAt := s.issuedAt + seq(|firings|, _ => later),
       fate := Sentence(s.fate, OneShots(s.core.timers, batch), FiredOnce))
  }

  ghost function LookStep(s: State, now: int, later: int, wake: int, batch: seq<nat>): State {
    if Decides(s.core, now, Exit) then s.(scheduler := Gone)
    else if Decides(s.core, now, Sleep(None)) then s.(scheduler := Sleeping(None))
    else if Decides(s.core, now, Sleep(Some(wake))) then s.(scheduler := Sleeping(Some(wake)))
    else if Decides(s.core, now, Drain) && now <= later && IsDueList(s.core.timers, later, batch) then
      DrainStep(s, later, batch)
    else s
  }

  ghost function SchedulerStep(s: State, now: int, later: int, wake: int, batch: seq<nat>): State {
    match s.scheduler
    case Looking => LookStep(s, now, later, wake, batch)
    case Sleeping(_) => s.(scheduler := Looking)
    case Handing(firings) =>
      if firings == [] then s.(scheduler := Looking)
      else s.(ready := s.ready + firings, scheduler := Announcing)
    case Announcing => WakeWorkers(s).(scheduler := Looking)
    case Gone => s
  }

  function WorkerStep(s: State, i: nat): State
    requires i < |s.workers|
  {
    match s.workers[i]
    case Checking =>
      if s.ready != [] then
        s.(workers := s.workers[i := Running(s.ready[0])], ready := s.ready[1..], dequeued := s.dequeued + [s.ready[0]])
      else s.(workers := s.workers[i := if s.stopping then Exited else Asleep])
    case Asleep => s.(workers := s.workers[i := Checking])
    case Running(_) => s.(workers := s.workers[i := Checking])
    case Exited => s
  }

  ghost function Step(s: State, a: Action): State {
    match a
    case ByClient(i, call, now) => if i < |s.clients| then ClientStep(s, i, call, now) else s
    case ByScheduler(now, later, wake, batch) => SchedulerStep(s, now, later, wake, batch)
    case ByWorker(i) => if i < |s.workers| then WorkerStep(s, i) else s
  }

  ghost function Exec(s: State, run: seq<Action>): State {
    if run == [] then s else Step(Exec(s, run[..|run| - 1]), run[|run| - 1])
  }

  // ---------- Invariants ----------

  predicate PendingNotify(c: ClientPc) { c.Notifying? || c.ShutNotifying? }

  ghost predicate SomePendingNotify(s: State) {
    exists i :: 0 <= i < |s.clients| && PendingNotify(s.clients[i])
  }

  ghost predicate SomeStopNotifying(s: State) {
    exists i :: 0 <= i < |s.clients| && s.clients[i].StopNotifying?
  }

  /** A scheduler that will not be notified sleeps no longer than until the earliest live deadline. */
  ghost predicate WakesInTime(s: State) {
    s.scheduler.Sleeping? && !SomePendingNotify(s) ==>
      !s.core.shuttingDown &&
      (s.scheduler.until.None? ==> s.core.timers == map[]) &&
      (s.scheduler.until.Some? ==> forall id :: id in s.core.timers ==> s.scheduler.until.value <= s.core.timers[id].deadline)
  }

  function InHand(s: State): seq<Firing> {
    if s.scheduler.Handing? then s.scheduler.batch else []
  }

  /** Every firing is dequeued, queued or in the scheduler's hand, in the order in which it was issued. */
  ghost predicate Delivery(s: State) {
    s.issued == s.dequeued + s.ready + InHand(s) && |s.issued| == s.core.fired
  }

  /** A sleeping worker has nothing to do, or a notification is on its way. */
  ghost predicate WorkersWake(s: State) {
    forall w :: 0 <= w < |s.workers| && s.workers[w].Asleep? ==>
      (s.ready == [] && !s.stopping) || s.scheduler.Announcing? || SomeStopNotifying(s)
  }

  predicate AfterSchedulerJoin(c: ClientPc) { c.Stopping? || c.StopNotifying? || c.JoiningWorkers? || c.Returned? }

  ghost predicate ShutdownOrder(s: State) {
    && (s.stopping ==> s.scheduler.Gone?)
    && (forall i :: 0 <= i < |s.clients| && AfterSchedulerJoin(s.clients[i]) ==> s.scheduler.Gone?)
    && (forall w :: 0 <= w < |s.workers| && s.workers[w].Exited? ==> s.ready == [] && s.stopping)
    && (forall i :: 0 <= i < |s.clients| && s.clients[i].Returned? ==>
          forall w :: 0 <= w < |s.workers| ==> s.workers[w].Exited?)
  }

  /** The identifiers issued so far. */
  function Issued(next: nat): (ids: set<nat>)
    ensures forall id :: id in ids <==> INVALID_TIMER_ID < id < next
  {
    if next <= 1 then {} else Issued(next - 1) + {next - 1}
  }

  function WithFate(fate: map<nat, Fate>, f: Fate): set<nat> {
    set id | id in fate && fate[id] == f
  }

  /** Every identifier ever issued is live or has met one fate, and not both. */
  ghost predicate Ledger(live: set<nat>, fate: map<nat, Fate>, next: nat) {
    live !! fate.Keys && live + fate.Keys == Issued(next)
  }

  ghost predicate Partition(s: State) {
    && Ledger(s.core.timers.Keys, s.fate, s.core.nextId)
    && |WithFate(s.fate, Cancelled)| == s.core.cancelled
    && s.core.scheduled + 1 == s.core.nextId
  }

  ghost predicate Inv(s: State) {
    WellFormed(s.core) && WakesInTime(s) && Delivery(s) && WorkersWake(s) && ShutdownOrder(s) && Partition(s)
  }
}
