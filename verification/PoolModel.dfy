/**
 The connection pool as a transition system.

 Every actor is one program counter; the transitions are the critical sections of the pool's mutex and the slow
 work done between them.  Counters are integers, so that "never below zero" is a theorem and not a typing rule.
 */
module PoolModel {
  import opened Common

  datatype Config = Config(minIdle: nat, maxSize: nat, idleTimeout: int, maxLifetime: int)

  datatype Entry = Entry(id: nat, createdAt: int, lastUsedAt: int)

  /** What the mutex protects. */
  datatype Pool = Pool(
    idle: seq<Entry>, shuttingDown: bool,
    total: int, active: int, waiting: int, created: int, destroyed: int, acquired: int, timeouts: int)

  datatype Pc =
    | Idle
    | Acquire(woken: bool)              // about to lock and look for a connection
    | Waiting                           // asleep on `available`
    | Woken(timedOut: bool)             // left the wait set, has not re-checked the predicate
    | Creating                          // in the factory, with a slot reserved
    | Created(e: Entry)                 // about to count the new connection
    | CreateFailed                      // about to give the slot back
    | Checking(e: Entry)                // examining a reused connection
    | Deciding(e: Entry)                // about to check for shutdown before handing it out
    | Retiring(e: Entry, again: bool)   // about to close it, still counted
    | Retired(again: bool)              // closed it, about to uncount it
    | Borrowed(e: Entry)                // in the caller's hands
    | Releasing(e: Entry, expired: bool)
    | WarmUp
    | Warming                           // in the factory, with a slot reserved
    | WarmFailed
    | Warmed(e: Entry)
    | Cleaning(now: int)
    | Closing(es: seq<Entry>, warming: bool) // uncounted, about to close; a warm-up goes on afterwards
    | ShutdownStart
    | ShutdownWait                      // about to evaluate active == 0 under the lock
    | ShutdownSleep                     // asleep on `shutdown_done`

  datatype Wake = Nobody | Somebody | Everybody

  /** A transition's result: the pool, the actor's next program counter, and the notifications it issues. */
  datatype After = After(pool: Pool, pc: Pc, wake: Wake, wakeShutdown: bool)

  function Quietly(p: Pool, pc: Pc): After { After(p, pc, Nobody, false) }

  predicate IsExpired(start: int, now: int, limit: int) {
    limit >= 0 && now - start >= limit
  }

  predicate ShouldRetire(c: Config, e: Entry, now: int) {
    IsExpired(e.createdAt, now, c.maxLifetime) || IsExpired(e.lastUsedAt, now, c.idleTimeout)
  }

  /** Neither of the two times has run out at `now`; a negative limit never does. */
  predicate Fresh(c: Config, e: Entry, now: int) {
    (c.maxLifetime < 0 || now - e.createdAt < c.maxLifetime) &&
    (c.idleTimeout < 0 || now - e.lastUsedAt < c.idleTimeout)
  }

  lemma RetiredIffNotFresh(c: Config, e: Entry, now: int)
    ensures ShouldRetire(c, e, now) <==> !Fresh(c, e, now)
  {
  }

  /** Where an actor goes that has `es` left to close. */
  function CloseAll(es: seq<Entry>, warming: bool): Pc {
    if es != [] then Closing(es, warming) else if warming then WarmUp else Idle
  }

  // ---------- Critical sections ----------

  function AcquireSection(c: Config, p: Pool): After {
    if p.shuttingDown then Quietly(p, Idle)
    else if p.idle != [] then
      Quietly(p.(idle := p.idle[1..], active := p.active + 1), Checking(p.idle[0]))
    else if p.total < c.maxSize then
      Quietly(p.(total := p.total + 1, active := p.active + 1), Creating)
    else Quietly(p.(waiting := p.waiting + 1), Waiting)
  }

  /** The wait's predicate: there is something to acquire, or nothing to wait for. */
  predicate Ready(c: Config, p: Pool) {
    p.shuttingDown || p.idle != [] || p.total < c.maxSize
  }

  function WokenSection(c: Config, p: Pool, timedOut: bool): After {
    if Ready(c, p) then Quietly(p.(waiting := p.waiting - 1), Acquire(true))
    else if timedOut then Quietly(p.(waiting := p.waiting - 1, timeouts := p.timeouts + 1), Idle)
    else Quietly(p, Waiting)
  }

  function CreateFailedSection(p: Pool): After {
    After(p.(active := p.active - 1, total := p.total - 1), Idle, Somebody, p.active - 1 == 0)
  }

  function DecideSection(p: Pool, e: Entry): After {
    if p.shuttingDown then Quietly(p, Retiring(e, false))
    else Quietly(p.(acquired := p.acquired + 1), Borrowed(e))
  }

  function RetireSection(p: Pool, again: bool): After {
    After(p.(active := p.active - 1, total := p.total - 1, destroyed := p.destroyed + 1),
          if again then Acquire(false) else Idle, Somebody, p.active - 1 == 0)
  }

  function ReleaseSection(p: Pool, e: Entry, expired: bool): After {
    if p.shuttingDown || expired then
      After(p.(active := p.active - 1, total := p.total - 1, destroyed := p.destroyed + 1),
            CloseAll([e], false), Somebody, p.active - 1 == 0)
    else
      After(p.(active := p.active - 1, idle := p.idle + [e]), Idle, Somebody, p.active - 1 == 0)
  }

  function WarmUpSection(c: Config, p: Pool): After {
    if p.shuttingDown || |p.idle| >= c.minIdle || p.total >= c.maxSize then Quietly(p, Idle)
    else Quietly(p.(total := p.total + 1), Warming)
  }

  function WarmFailedSection(p: Pool): After {
    After(p.(total := p.total - 1), Idle, Somebody, false)
  }

  function WarmedSection(p: Pool, e: Entry): After {
    if p.shuttingDown then Quietly(p.(total := p.total - 1), CloseAll([e], true))
    else After(p.(created := p.created + 1, idle := p.idle + [e]), WarmUp, Somebody, false)
  }

  /** The cleaner's sweep: (kept, stale), retiring at most `budget` entries. */
  function Sweep(c: Config, idle: seq<Entry>, budget: int, now: int): (r: (seq<Entry>, seq<Entry>)) {
    if idle == [] then ([], [])
    else if ShouldRetire(c, idle[0], now) && budget > 0 then
      var (kept, stale) := Sweep(c, idle[1..], budget - 1, now);
      (kept, [idle[0]] + stale)
    else
      var (kept, stale) := Sweep(c, idle[1..], budget, now);
      ([idle[0]] + kept, stale)
  }

  function CleanSection(c: Config, p: Pool, now: int): After {
    var (kept, stale) := Sweep(c, p.idle, p.total - c.minIdle, now);
    After(p.(idle := kept, total := p.total - |stale|, destroyed := p.destroyed + |stale|),
          CloseAll(stale, false), if stale == [] then Nobody else Everybody, false)
  }

  function ShutdownStartSection(p: Pool): After {
    After(p.(shuttingDown := true), ShutdownWait, Everybody, false)
  }

  function ShutdownWaitSection(p: Pool): After {
    if p.active == 0 then
      Quietly(p.(idle := [], destroyed := p.destroyed + |p.idle|, total := p.total - |p.idle|), CloseAll(p.idle, false))
    else Quietly(p, ShutdownSleep)
  }

  // ---------- The whole system ----------

  /**
   `nextId` names connections as the factory makes them, and so counts them; `closed` counts the ones closed again.
   `retired` holds those that have been given up for closing; `finished` records that a shutdown has passed its wait
   and emptied the pool.
   */
  datatype State = State(p: Pool, pcs: seq<Pc>, nextId: nat, closed: nat, retired: set<nat>, finished: bool)

  datatype Call = CallAcquire | CallWarmUp | CallCleanup | CallShutdown

  /**
   Actor `i` takes its next step.  `call` is read when it is idle; `now` is the clock; `ok` is the factory's or the
   ping's answer, or whether a wait ended by time-out; `pick` is the sleeper a notify_one wakes.
   */
  datatype Action = Action(i: nat, call: Call, now: int, ok: bool, pick: nat)

  function Init(actors: nat): State {
    State(Pool([], false, 0, 0, 0, 0, 0, 0, 0), seq(actors, _ => Idle), 0, 0, {}, false)
  }

  function Advance(c: Config, s: State, pc: Pc, a: Action): After {
    var p := s.p;
    match pc
    case Idle => Quietly(p, match a.call
                            case CallAcquire => Acquire(false)
                            case CallWarmUp => WarmUp
                            case CallCleanup => Cleaning(a.now)
                            case CallShutdown => ShutdownStart)
    case Acquire(_) => AcquireSection(c, p)
    case Waiting => Quietly(p, Woken(a.ok))
    case Woken(timedOut) => WokenSection(c, p, timedOut)
    case Creating => Quietly(p, if a.ok then Created(Entry(s.nextId, a.now, a.now)) else CreateFailed)
    case Created(e) => Quietly(p.(created := p.created + 1), Deciding(e))
    case CreateFailed => CreateFailedSection(p)
    case Checking(e) =>
      Quietly(p, if ShouldRetire(c, e, a.now) || !a.ok then Retiring(e, true) else Deciding(e))
    case Deciding(e) => DecideSection(p, e)
    case Retiring(_, again) => Quietly(p, Retired(again))
    case Retired(again) => RetireSection(p, again)
    case Borrowed(e) => Quietly(p, Releasing(e.(lastUsedAt := a.now), IsExpired(e.createdAt, a.now, c.maxLifetime)))
    case Releasing(e, expired) => ReleaseSection(p, e, expired)
    case WarmUp => WarmUpSection(c, p)
    case Warming => Quietly(p, if a.ok then Warmed(Entry(s.nextId, a.now, a.now)) else WarmFailed)
    case WarmFailed => WarmFailedSection(p)
    case Warmed(e) => WarmedSection(p, e)
    case Cleaning(now) => CleanSection(c, p, now)
    case Closing(es, warming) => Quietly(p, CloseAll(if es == [] then [] else es[1..], warming))
    case ShutdownStart => ShutdownStartSection(p)
    case ShutdownWait => ShutdownWaitSection(p)
    case ShutdownSleep => Quietly(p, ShutdownWait)
  }

  /** The first sleeper on `available`, or |pcs|. */
  function FirstWaiting(pcs: seq<Pc>): (k: nat)
    ensures k <= |pcs|
    ensures k < |pcs| ==> pcs[k].Waiting?
    ensures k == |pcs| ==> forall j :: 0 <= j < |pcs| ==> !pcs[j].Waiting?
  {
    if pcs == [] then 0 else if pcs[0].Waiting? then 0 else 1 + FirstWaiting(pcs[1..])
  }

  /** notify_one wakes some sleeper if there is one: the picked one, when the pick names a sleeper. */
  function Sleeper(pcs: seq<Pc>, pick: nat): nat {
    if pick < |pcs| && pcs[pick].Waiting? then pick else FirstWaiting(pcs)
  }

  function WakeUp(pcs: seq<Pc>, wake: Wake, pick: nat): seq<Pc> {
    match wake
    case Nobody => pcs
    case Somebody => if Sleeper(pcs, pick) < |pcs| then pcs[Sleeper(pcs, pick) := Woken(false)] else pcs
    case Everybody => seq(|pcs|, i requires 0 <= i < |pcs| => if pcs[i].Waiting? then Woken(false) else pcs[i])
  }

  function WakeShutdown(pcs: seq<Pc>, wake: bool): seq<Pc> {
    if wake
    then seq(|pcs|, i requires 0 <= i < |pcs| => if pcs[i].ShutdownSleep? then ShutdownWait else pcs[i])
    else pcs
  }

  /** Has a connection in hand that is open and counted, or, in a warm-up, that its reservation stands for. */
  predicate Holds(pc: Pc) {
    pc.Created? || pc.Checking? || pc.Deciding? || pc.Retiring? || pc.Borrowed? || pc.Releasing? || pc.Warmed?
  }

  /** Whether a transition closes a connection. */
  predicate Closes(pc: Pc) {
    pc.Retiring? || (pc.Closing? && pc.es != [])
  }

  /** The connections a transition gives up for closing. */
  function GivenUp(c: Config, p: Pool, pc: Pc): set<nat> {
    match pc
    case Retiring(e, _) => {e.id}
    case Releasing(e, expired) => if p.shuttingDown || expired then {e.id} else {}
    case Warmed(e) => if p.shuttingDown then {e.id} else {}
    case Cleaning(now) => Ids(Sweep(c, p.idle, p.total - c.minIdle, now).1)
    case ShutdownWait => if p.active == 0 then Ids(p.idle) else {}
    case _ => {}
  }

  function Ids(es: seq<Entry>): set<nat> {
    set k | 0 <= k < |es| :: es[k].id
  }

  function Step(c: Config, s: State, a: Action): State {
    if a.i >= |s.pcs| then s
    else
      var pc := s.pcs[a.i];
      var r := Advance(c, s, pc, a);
      State(r.pool,
            WakeShutdown(WakeUp(s.pcs[a.i := r.pc], r.wake, a.pick), r.wakeShutdown),
            if (pc.Creating? || pc.Warming?) && a.ok then s.nextId + 1 else s.nextId,
            s.closed + One(Closes(pc)),
            s.retired + GivenUp(c, s.p, pc),
            s.finished || (pc.ShutdownWait? && s.p.active == 0))
  }

  function Exec(c: Config, s: State, run: seq<Action>): State {
    if run == [] then s else Step(c, Exec(c, s, run[..|run| - 1]), run[|run| - 1])
  }
}
