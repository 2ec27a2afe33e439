/**
 The pool in the program's own form: counters and an idle queue, updated in place.

 Every critical section is proved equal to the section the transition system steps with, and the operations built
 from them are proved, for one caller at a time, against what they are for.
 */
module ConnectionPool {
  import opened Common
  import opened PoolModel
  import opened PoolInvariant
  import opened PoolOwnership

  datatype Error = InvalidArgument

  /** A reused connection that may be handed out: not expired and answering the ping. */
  predicate Usable(c: Config, e: Entry, now: int, ping: nat -> bool) {
    Fresh(c, e, now) && ping(e.id)
  }

  class ConnectionPool {
    const config: Config
    var idle: seq<Entry>
    var shuttingDown: bool
    var total: int
    var active: int
    var waiting: int
    var created: int
    var destroyed: int
    var acquired: int
    var timeouts: int

    ghost function View(): Pool
      reads this
    {
      Pool(idle, shuttingDown, total, active, waiting, created, destroyed, acquired, timeouts)
    }

    constructor (config: Config)
      requires 0 < config.maxSize && config.minIdle <= config.maxSize
      ensures this.config == config
      ensures forall actors :: View() == Init(actors).p
    {
      this.config := config;
      idle, shuttingDown := [], false;
      total, active, waiting, created, destroyed, acquired, timeouts := 0, 0, 0, 0, 0, 0, 0;
    }

    /** The checked way to build a pool; `cleanerInterval` is the configured period of the cleaner. */
    static method Create(hasFactory: bool, config: Config, cleanerInterval: int)
      returns (r: Result<ConnectionPool, Error>)
      ensures r.Ok? <==> hasFactory && config.maxSize != 0 && config.minIdle <= config.maxSize && cleanerInterval > 0
      ensures r.Ok? ==> fresh(r.value) && r.value.config == config && forall actors :: r.value.View() == Init(actors).p
    {
      if !hasFactory || config.maxSize == 0 || config.minIdle > config.maxSize || cleanerInterval <= 0 {
        return Error(InvalidArgument);
      }
      var pool := new ConnectionPool(config);
      return Ok(pool);
    }

    // ---------- Critical sections ----------

    method LockAndLook() returns (next: Pc)
      modifies this
      ensures Quietly(View(), next) == AcquireSection(config, old(View()))
    {
      if shuttingDown {
        return Idle;
      }
      if idle != [] {
        next := Checking(idle[0]);
        idle := idle[1..];
        active := active + 1;
      } else if total < config.maxSize {
        total := total + 1;
        active := active + 1;
        next := Creating;
      } else {
        waiting := waiting + 1;
        next := Waiting;
      }
    }

    method LockAfterWait(timedOut: bool) returns (next: Pc)
      modifies this
      ensures Quietly(View(), next) == WokenSection(config, old(View()), timedOut)
    {
      var ready := shuttingDown || idle != [] || total < config.maxSize;
      if !ready && !timedOut {
        return Waiting;
      }
      waiting := waiting - 1;
      if !ready {
        timeouts := timeouts + 1;
        return Idle;
      }
      return Acquire(true);
    }

    method GiveUpCreation() returns (wakeShutdown: bool)
      modifies this
      ensures After(View(), Idle, Somebody, wakeShutdown) == CreateFailedSection(old(View()))
    {
      active := active - 1;
      total := total - 1;
      wakeShutdown := active == 0;
    }

    method RetireActive(again: bool) returns (next: Pc, wakeShutdown: bool)
      modifies this
      ensures After(View(), next, Somebody, wakeShutdown) == RetireSection(old(View()), again)
    {
      active := active - 1;
      total := total - 1;
      destroyed := destroyed + 1;
      wakeShutdown := active == 0;
      next := if again then Acquire(false) else Idle;
    }

    /**
     Returning a connection at time `now`: it goes to the back of the idle queue with a fresh last-used time, unless
     the pool is shutting down or the connection has reached its life time, and then it comes back for closing.
     */
    method Release(entry: Entry, now: int) returns (closeNow: Option<Entry>, wakeShutdown: bool)
      modifies this
      ensures var e := entry.(lastUsedAt := now);
              var r := ReleaseSection(old(View()), e, IsExpired(entry.createdAt, now, config.maxLifetime));
              && View() == r.pool && wakeShutdown == r.wakeShutdown && r.wake == Somebody
              && r.pc == CloseAll(if closeNow.Some? then [closeNow.value] else [], false)
      ensures closeNow.Some? <==>
              old(shuttingDown) || (config.maxLifetime >= 0 && now - entry.createdAt >= config.maxLifetime)
      ensures View() == if closeNow.Some?
                        then old(View()).(active := old(active) - 1, total := old(total) - 1, destroyed := old(destroyed) + 1)
                        else old(View()).(active := old(active) - 1, idle := old(idle) + [Entry(entry.id, entry.createdAt, now)])
      ensures closeNow.Some? ==> closeNow.value == Entry(entry.id, entry.createdAt, now)
      ensures wakeShutdown <==> active == 0
    {
      var e := entry.(lastUsedAt := now);
      var reachedLifetime := IsExpired(e.createdAt, e.lastUsedAt, config.maxLifetime);
      closeNow := None;
      if shuttingDown || reachedLifetime {
        active := active - 1;
        total := total - 1;
        destroyed := destroyed + 1;
        closeNow := Some(e);
      } else {
        active := active - 1;
        idle := idle + [e];
      }
      wakeShutdown := active == 0;
    }

    /** One pass of the cleaner over the idle queue. */
    method CleanupIdle(now: int) returns (stale: seq<Entry>, wake: Wake)
      modifies this
      ensures After(View(), CloseAll(stale, false), wake, false) == CleanSection(config, old(View()), now)
      ensures stale == Sweep(config, old(idle), old(total) - config.minIdle, now).1
      ensures total == old(total) - |stale| && Tidied(config, old(idle), now, idle, stale, total)
    {
      hide Sweep, Swept, ShouldRetire, Tidied, CleanSection;
      stale := [];
      var it := 0;
      assert idle[0..] == idle;
      SweptNone(Sweep(config, idle, total - config.minIdle, now));
      while it < |idle|
        invariant 0 <= it <= |idle|
        invariant total == old(total) - |stale| && destroyed == old(destroyed) + |stale|
        invariant Swept(Sweep(config, old(idle), old(total) - config.minIdle, now), idle[..it], stale,
                        Sweep(config, idle[it..], total - config.minIdle, now))
        invariant shuttingDown == old(shuttingDown) && active == old(active) && waiting == old(waiting)
        invariant created == old(created) && acquired == old(acquired) && timeouts == old(timeouts)
        decreases |idle| - it
      {
        var e := idle[it];
        SweptNext(config, Sweep(config, old(idle), old(total) - config.minIdle, now), idle, it, stale,
                  total - config.minIdle, now);
        if ShouldRetire(config, e, now) && total > config.minIdle {
          stale := stale + [e];
          idle := idle[..it] + idle[it + 1..];
          total := total - 1;
          destroyed := destroyed + 1;
        } else {
          it := it + 1;
        }
      }
      assert idle[..it] == idle && idle[it..] == [];
      SweptAll(config, Sweep(config, old(idle), old(total) - config.minIdle, now), idle, stale,
               total - config.minIdle, now);
      wake := if stale != [] then Everybody else Nobody;
      CleanedUp(config, old(View()), now, View(), stale, wake);
    }

    // ---------- Operations of a lone caller ----------

    /**
     Warming up alone tops the idle queue up to `min_idle`, as far as `max_size` allows and the factory delivers.
     `factory(n)` says whether making the connection named `n` succeeds.
     */
    method WarmUp(factory: nat -> bool, now: int, firstId: nat) returns (warmed: nat)
      modifies this
      ensures idle == old(idle) + seq(warmed, k requires k >= 0 => Entry(firstId + k, now, now))
      ensures warmed <= Room(config, old(View()))
      ensures forall id: nat :: firstId <= id < firstId + warmed ==> factory(id)
      ensures warmed < Room(config, old(View())) ==> !factory(firstId + warmed)
      ensures View() == old(View()).(idle := idle, total := old(total) + warmed, created := old(created) + warmed)
    {
      warmed := 0;
      while true
        invariant warmed <= Room(config, old(View()))
        invariant idle == old(idle) + seq(warmed, k requires k >= 0 => Entry(firstId + k, now, now))
        invariant forall id: nat :: firstId <= id < firstId + warmed ==> factory(id)
        invariant View() == old(View()).(idle := idle, total := old(total) + warmed, created := old(created) + warmed)
        decreases Room(config, old(View())) - warmed
      {
        if shuttingDown || |idle| >= config.minIdle || total >= config.maxSize {
          break;
        }
        total := total + 1;
        if !factory(firstId + warmed) {
          total := total - 1;
          break;
        }
        created := created + 1;
        idle := idle + [Entry(firstId + warmed, now, now)];
        warmed := warmed + 1;
      }
    }

    /**
     Acquiring alone: the first usable idle connection is handed out and every unusable one before it is destroyed.
     If there is none, a new connection is made when `max_size` allows, and otherwise the wait times out.
     */
    method TryAcquireFor(now: int, ping: nat -> bool, factory: bool, freshId: nat) returns (r: Option<Entry>)
      modifies this
      ensures var was, k := old(View()), FirstUsable(config, old(idle), now, ping, 0);
              var tried := Dropped(was, |was.idle|);
              if was.shuttingDown then r == None && View() == was
              else if k < |was.idle| then
                r == Some(was.idle[k]) &&
                View() == Dropped(was, k).(idle := was.idle[k + 1..], active := was.active + 1,
                                           acquired := was.acquired + 1)
              else if tried.total >= config.maxSize then
                r == None && View() == tried.(timeouts := was.timeouts + 1)
              else if factory then
                r == Some(Entry(freshId, now, now)) &&
                View() == tried.(total := tried.total + 1, active := was.active + 1, created := was.created + 1,
                                 acquired := was.acquired + 1)
              else r == None && View() == tried
      ensures r.Some? && !(r.value == Entry(freshId, now, now) && created == old(created) + 1) ==>
                exists k ::
                  && 0 <= k < |old(idle)| && r.value == old(idle)[k]
                  && (config.maxLifetime < 0 || now - r.value.createdAt < config.maxLifetime)
                  && (config.idleTimeout < 0 || now - r.value.lastUsedAt < config.idleTimeout)
                  && ping(r.value.id)
                  && destroyed == old(destroyed) + k
      ensures forall l :: 0 <= l < destroyed - old(destroyed) ==>
                || (config.maxLifetime >= 0 && now - old(idle)[l].createdAt >= config.maxLifetime)
                || (config.idleTimeout >= 0 && now - old(idle)[l].lastUsedAt >= config.idleTimeout)
                || !ping(old(idle)[l].id)
    {
      ghost var was := View();
      ghost var j := 0;
      var done := false;
      r := None;
      assert was.idle[0..] == was.idle;
      FirstUsableRange(config, idle, now, ping, 0);
      while !done
        invariant j <= |was.idle| && (was.shuttingDown ==> j == 0)
        invariant FirstUsable(config, was.idle, now, ping, 0) == FirstUsable(config, was.idle, now, ping, j)
        invariant if done then Served(config, Dropped(was, j), now, ping, factory, freshId, r, View())
                  else View() == Dropped(was, j)
        decreases !done, |idle|
      {
        done, r := AcquireOnce(now, ping, factory, freshId);
        if !done { j := j + 1; }
      }
    }

    /** One round of an acquire: it is served, or the connection at the front was unusable and is destroyed. */
    method AcquireOnce(now: int, ping: nat -> bool, factory: bool, freshId: nat) returns (done: bool, r: Option<Entry>)
      modifies this
      ensures done <==> old(shuttingDown) || old(idle) == [] || Usable(config, old(idle)[0], now, ping)
      ensures if done then Served(config, old(View()), now, ping, factory, freshId, r, View())
              else View() == Dropped(old(View()), 1)
    {
      var next := LockAndLook();
      match next {
        case Idle => return true, None;
        case Waiting =>
          // Nobody else acts, so the deadline passes with the predicate still false.
          var given := LockAfterWait(true);
          return true, None;
        case Creating =>
          if !factory {
            var wakeShutdown := GiveUpCreation();
            return true, None;
          }
          created := created + 1;
          acquired := acquired + 1;
          return true, Some(Entry(freshId, now, now));
        case Checking(entry) =>
          RetiredIffNotFresh(config, entry, now);
          if ShouldRetire(config, entry, now) || !ping(entry.id) {
            var again, wakeShutdown := RetireActive(true);
            return false, None;
          }
          acquired := acquired + 1;
          return true, Some(entry);
      }
    }

    /**
     Shutting down alone: nothing new is lent from now on.  While something is borrowed the call waits, and nobody else
     acts to end the wait; otherwise everything idle is handed back for closing, and the books balance.
     */
    method Shutdown() returns (toClose: Option<seq<Entry>>)
      modifies this
      ensures toClose.None? <==> old(active) != 0
      ensures toClose.None? ==> View() == ShutdownStartSection(old(View())).pool
      ensures toClose.Some? ==>
                Quietly(View(), CloseAll(toClose.value, false)) ==
                ShutdownWaitSection(ShutdownStartSection(old(View())).pool)
      ensures toClose.Some? && old(created) - old(destroyed) == |old(idle)| ==> created == destroyed
    {
      shuttingDown := true;
      if active != 0 {
        return None;
      }
      toClose := Some(idle);
      idle := [];
      destroyed := destroyed + |toClose.value|;
      total := total - |toClose.value|;
    }
  }

  /** A finished sweep is what was kept and retired so far, followed by the sweep of the rest. */
  ghost predicate Swept(all: (seq<Entry>, seq<Entry>), kept: seq<Entry>, stale: seq<Entry>,
                        rest: (seq<Entry>, seq<Entry>)) {
    all.0 == kept + rest.0 && all.1 == stale + rest.1
  }

  lemma SweptNone(all: (seq<Entry>, seq<Entry>))
    ensures Swept(all, [], [], all)
  {
  }

  /** The next entry is taken out, or passed over. */
  lemma SweptNext(c: Config, all: (seq<Entry>, seq<Entry>), idle: seq<Entry>, it: nat, stale: seq<Entry>,
                  budget: int, now: int)
    requires it < |idle| && Swept(all, idle[..it], stale, Sweep(c, idle[it..], budget, now))
    ensures if ShouldRetire(c, idle[it], now) && budget > 0
            then var idle' := idle[..it] + idle[it + 1..];
                 Swept(all, idle'[..it], stale + [idle[it]], Sweep(c, idle'[it..], budget - 1, now))
            else Swept(all, idle[..it + 1], stale, Sweep(c, idle[it + 1..], budget, now))
  {
    Without(idle, it);
    var x, rest := idle[it], idle[it + 1..];
    assert idle[it..][0] == x && idle[it..][1..] == rest && idle[..it + 1] == idle[..it] + [x];
    assert forall ys, zs: seq<Entry> :: ys + ([x] + zs) == (ys + [x]) + zs;
  }

  lemma SweptAll(c: Config, all: (seq<Entry>, seq<Entry>), kept: seq<Entry>, stale: seq<Entry>, budget: int, now: int)
    requires Swept(all, kept, stale, Sweep(c, [], budget, now))
    ensures all == (kept, stale)
  {
    assert kept + [] == kept && stale + [] == stale;
  }

  /** A sweep with its counters is the cleaner's critical section. */
  lemma CleanedUp(c: Config, was: Pool, now: int, p: Pool, stale: seq<Entry>, wake: Wake)
    requires (p.idle, stale) == Sweep(c, was.idle, was.total - c.minIdle, now)
    requires p == was.(idle := p.idle, total := was.total - |stale|, destroyed := was.destroyed + |stale|)
    requires wake == if stale != [] then Everybody else Nobody
    ensures After(p, CloseAll(stale, false), wake, false) == CleanSection(c, was, now)
    ensures Tidied(c, was.idle, now, p.idle, stale, p.total)
  {
    TidiedBySweep(c, was, now, p.idle, stale, p.total);
  }

  lemma Without(idle: seq<Entry>, it: nat)
    requires it < |idle|
    ensures (idle[..it] + idle[it + 1..])[..it] == idle[..it]
    ensures (idle[..it] + idle[it + 1..])[it..] == idle[it + 1..]
  {
  }

  /** The pool after the first `j` idle connections were found unusable and destroyed. */
  function Dropped(p: Pool, j: nat): Pool
    requires j <= |p.idle|
  {
    p.(idle := p.idle[j..], total := p.total - j, destroyed := p.destroyed + j)
  }

  /** How an acquire of a lone caller ends that finds the pool as `p`: with `r`, and the pool as `p'`. */
  predicate Served(c: Config, p: Pool, now: int, ping: nat -> bool, factory: bool, freshId: nat, r: Option<Entry>,
                   p': Pool) {
    if p.shuttingDown then r == None && p' == p
    else if p.idle != [] then
      Usable(c, p.idle[0], now, ping) && r == Some(p.idle[0]) &&
      p' == p.(idle := p.idle[1..], active := p.active + 1, acquired := p.acquired + 1)
    else if p.total >= c.maxSize then r == None && p' == p.(timeouts := p.timeouts + 1)
    else if factory then
      r == Some(Entry(freshId, now, now)) &&
      p' == p.(total := p.total + 1, active := p.active + 1, created := p.created + 1, acquired := p.acquired + 1)
    else r == None && p' == p
  }

  /** How many connections a warm-up may add. */
  function Room(c: Config, p: Pool): nat {
    var missing, slots := c.minIdle - |p.idle|, c.maxSize - p.total;
    var n := if missing < slots then missing else slots;
    if p.shuttingDown || n < 0 then 0 else n
  }

  /** The index of the first usable entry from `j` on, or |idle|. */
  function FirstUsable(c: Config, idle: seq<Entry>, now: int, ping: nat -> bool, j: nat): nat
    requires j <= |idle|
    decreases |idle| - j
  {
    if j == |idle| || Usable(c, idle[j], now, ping) then j else FirstUsable(c, idle, now, ping, j + 1)
  }

  lemma {:induction false} FirstUsableRange(c: Config, idle: seq<Entry>, now: int, ping: nat -> bool, j: nat)
    requires j <= |idle|
    ensures var k := FirstUsable(c, idle, now, ping, j);
            && j <= k <= |idle|
            && (k < |idle| ==> Fresh(c, idle[k], now) && ping(idle[k].id))
            && (forall l :: j <= l < k ==> !Fresh(c, idle[l], now) || !ping(idle[l].id))
    decreases |idle| - j
  {
    if j < |idle| && !Usable(c, idle[j], now, ping) {
      FirstUsableRange(c, idle, now, ping, j + 1);
    }
  }
}
