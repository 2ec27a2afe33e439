/**
 Blocking pushes and pops of any number of threads, with the notifications issued after the mutex is released.

 The buffer is seen as the bounded queue that the circular array refines.
 */
module RingWaits {
  import opened Common
  import opened RingModel

  /** try..., wait... and wait...For. */
  datatype Mode = Try | Wait | Timed

  datatype Outcome<T> = Nothing | Pushed(ok: bool) | Popped(value: Option<T>)

  datatype Pc<T> =
    | Idle(last: Outcome<T>)
    | Pushing(v: T, mode: Mode)                    // about to lock
    | PushAsleep(v: T, mode: Mode)                 // in a wait on `not_full_`
    | PushWoken(v: T, mode: Mode, timedOut: bool)  // left the wait, about to re-check
    | NotifyEmpty                                  // pushed; about to notify `not_empty_`
    | Popping(mode: Mode)
    | PopAsleep(mode: Mode)                        // in a wait on `not_empty_`
    | PopWoken(mode: Mode, timedOut: bool)
    | NotifyFull(r: T)                             // popped; about to notify `not_full_`
    | CloseNotifyEmpty                             // closed; about to notify everybody on `not_empty_`
    | CloseNotifyFull                              // then everybody on `not_full_`
    | ClearNotify                                  // cleared; about to notify everybody on `not_full_`

  datatype Config = Config(cap: nat, policy: Policy)

  /** `accepted`, `popped`, `gone` (everything that left, popped or not) and `cleared` are history. */
  datatype State<T> = State(contents: seq<T>, closed: bool, pcs: seq<Pc<T>>,
                            accepted: seq<T>, popped: seq<T>, gone: seq<T>, cleared: bool)

  datatype Call<T> = Push(v: T, mode: Mode) | Pop(mode: Mode) | Close | Clear

  /** `timeout` says whether a wait ends by time-out; `pick` is the sleeper a notify_one wakes. */
  datatype Action<T> = Action(i: nat, call: Call<T>, timeout: bool, pick: nat)

  function Init<T>(threads: nat): State<T> {
    State([], false, seq(threads, _ => Idle(Nothing)), [], [], [], false)
  }

  predicate Writable<T>(c: Config, s: State<T>) {
    |s.contents| < c.cap || c.policy == OverwriteOldest
  }

  function Goto<T>(s: State<T>, i: nat, pc: Pc<T>): State<T>
    requires i < |s.pcs|
  {
    s.(pcs := s.pcs[i := pc])
  }

  function PushSection<T>(c: Config, s: State<T>, i: nat, v: T): State<T>
    requires i < |s.pcs|
  {
    var (ok, contents) := Put(s.contents, c.cap, c.policy, s.closed, v);
    if ok then Goto(s, i, NotifyEmpty).(contents := contents, accepted := s.accepted + [v],
                                        gone := s.gone + s.contents[..|s.contents| + 1 - |contents|])
    else Goto(s, i, Idle(Pushed(false)))
  }

  /** The predicate of the waits on `not_full_`, evaluated under the lock: push, give up, or sleep. */
  function PushOrSleep<T>(c: Config, s: State<T>, i: nat, v: T, mode: Mode, timedOut: bool): State<T>
    requires i < |s.pcs|
  {
    if mode == Try || s.closed || Writable(c, s) then PushSection(c, s, i, v)
    else if timedOut then Goto(s, i, Idle(Pushed(false)))
    else Goto(s, i, PushAsleep(v, mode))
  }

  function PopOrSleep<T>(s: State<T>, i: nat, mode: Mode, timedOut: bool): State<T>
    requires i < |s.pcs|
  {
    if s.contents != [] then
      Goto(s, i, NotifyFull(s.contents[0])).(contents := s.contents[1..], popped := s.popped + [s.contents[0]],
                                               gone := s.gone + [s.contents[0]])
    else if mode == Try || s.closed || timedOut then Goto(s, i, Idle(Popped(None)))
    else Goto(s, i, PopAsleep(mode))
  }

  function FirstAsleep<T>(pcs: seq<Pc<T>>, p: Pc<T> -> bool): (k: nat)
    ensures k <= |pcs|
    ensures k < |pcs| ==> p(pcs[k])
    ensures k == |pcs| ==> forall j :: 0 <= j < |pcs| ==> !p(pcs[j])
  {
    if pcs == [] then 0 else if p(pcs[0]) then 0 else 1 + FirstAsleep(pcs[1..], p)
  }

  /** notify_one wakes some sleeper if there is one: the picked one, when the pick names a sleeper. */
  function Sleeper<T>(pcs: seq<Pc<T>>, p: Pc<T> -> bool, pick: nat): nat {
    if pick < |pcs| && p(pcs[pick]) then pick else FirstAsleep(pcs, p)
  }

  predicate AsleepOnEmpty<T>(pc: Pc<T>) { pc.PopAsleep? }
  predicate AsleepOnFull<T>(pc: Pc<T>) { pc.PushAsleep? }

  function Woken<T>(pc: Pc<T>, timedOut: bool): Pc<T> {
    match pc
    case PushAsleep(v, mode) => PushWoken(v, mode, timedOut)
    case PopAsleep(mode) => PopWoken(mode, timedOut)
    case _ => pc
  }

  function WakeOne<T>(pcs: seq<Pc<T>>, p: Pc<T> -> bool, pick: nat): seq<Pc<T>> {
    var k := Sleeper(pcs, p, pick);
    if k < |pcs| then pcs[k := Woken(pcs[k], false)] else pcs
  }

  function WakeAll<T>(pcs: seq<Pc<T>>, p: Pc<T> -> bool): seq<Pc<T>> {
    seq(|pcs|, i requires 0 <= i < |pcs| => if p(pcs[i]) then Woken(pcs[i], false) else pcs[i])
  }

  function Begin<T>(s: State<T>, i: nat, call: Call<T>): State<T>
    requires i < |s.pcs|
  {
    match call
    case Push(v, mode) => Goto(s, i, Pushing(v, mode))
    case Pop(mode) => Goto(s, i, Popping(mode))
    case Close => Goto(s, i, CloseNotifyEmpty).(closed := true)
    case Clear => Goto(s, i, ClearNotify).(contents := [], gone := s.gone + s.contents, cleared := true)
  }

  function Step<T>(c: Config, s: State<T>, a: Action<T>): State<T> {
    if a.i >= |s.pcs| then s
    else
      match s.pcs[a.i]
      case Idle(_) => Begin(s, a.i, a.call)
      case Pushing(v, mode) => PushOrSleep(c, s, a.i, v, mode, false)
      case PushWoken(v, mode, timedOut) => PushOrSleep(c, s, a.i, v, mode, timedOut)
      case Popping(mode) => PopOrSleep(s, a.i, mode, false)
      case PopWoken(mode, timedOut) => PopOrSleep(s, a.i, mode, timedOut)
      // A sleeper also wakes by itself, spuriously or, in a timed wait, by time-out.
      case PushAsleep(_, mode) => Goto(s, a.i, Woken(s.pcs[a.i], a.timeout && mode == Timed))
      case PopAsleep(mode) => Goto(s, a.i, Woken(s.pcs[a.i], a.timeout && mode == Timed))
      case NotifyEmpty =>
        s.(pcs := WakeOne(s.pcs[a.i := Idle(Pushed(true))], AsleepOnEmpty, a.pick))
      case NotifyFull(r) =>
        s.(pcs := WakeOne(s.pcs[a.i := Idle(Popped(Some(r)))], AsleepOnFull, a.pick))
      case CloseNotifyEmpty => s.(pcs := WakeAll(s.pcs[a.i := CloseNotifyFull], AsleepOnEmpty))
      case CloseNotifyFull => s.(pcs := WakeAll(s.pcs[a.i := Idle(Nothing)], AsleepOnFull))
      case ClearNotify => s.(pcs := WakeAll(s.pcs[a.i := Idle(Nothing)], AsleepOnFull))
  }

  function Exec<T>(c: Config, s: State<T>, run: seq<Action<T>>): State<T> {
    if run == [] then s else Step(c, Exec(c, s, run[..|run| - 1]), run[|run| - 1])
  }

  // ---------- Counting threads ----------

  predicate PopComing<T>(pc: Pc<T>) { pc.PopWoken? }
  predicate PushComing<T>(pc: Pc<T>) { pc.PushWoken? }
  predicate EmptyNote<T>(pc: Pc<T>) { pc.NotifyEmpty? }
  predicate FullNote<T>(pc: Pc<T>) { pc.NotifyFull? }
  predicate ClearNote<T>(pc: Pc<T>) { pc.ClearNotify? }
  predicate CloseEmptyNote<T>(pc: Pc<T>) { pc.CloseNotifyEmpty? }
  predicate CloseNote<T>(pc: Pc<T>) { pc.CloseNotifyEmpty? || pc.CloseNotifyFull? }

  datatype Tally = Tally(popAsleep: nat, popComing: nat, emptyNotes: nat,
                         pushAsleep: nat, pushComing: nat, fullNotes: nat,
                         clearNotes: nat, closeEmptyNotes: nat, closeNotes: nat)

  function TallyOf<T>(pcs: seq<Pc<T>>): Tally {
    Tally(Count(pcs, AsleepOnEmpty), Count(pcs, PopComing), Count(pcs, EmptyNote),
          Count(pcs, AsleepOnFull), Count(pcs, PushComing), Count(pcs, FullNote),
          Count(pcs, ClearNote), Count(pcs, CloseEmptyNote), Count(pcs, CloseNote))
  }

  /** `t'` is `t` with one thread moved from `a` to `b`. */
  predicate Moved<T>(t: Tally, a: Pc<T>, b: Pc<T>, t': Tally) {
    t'.popAsleep + One(AsleepOnEmpty(a)) == t.popAsleep + One(AsleepOnEmpty(b)) &&
    t'.popComing + One(PopComing(a)) == t.popComing + One(PopComing(b)) &&
    t'.emptyNotes + One(EmptyNote(a)) == t.emptyNotes + One(EmptyNote(b)) &&
    t'.pushAsleep + One(AsleepOnFull(a)) == t.pushAsleep + One(AsleepOnFull(b)) &&
    t'.pushComing + One(PushComing(a)) == t.pushComing + One(PushComing(b)) &&
    t'.fullNotes + One(FullNote(a)) == t.fullNotes + One(FullNote(b)) &&
    t'.clearNotes + One(ClearNote(a)) == t.clearNotes + One(ClearNote(b)) &&
    t'.closeEmptyNotes + One(CloseEmptyNote(a)) == t.closeEmptyNotes + One(CloseEmptyNote(b)) &&
    t'.closeNotes + One(CloseNote(a)) == t.closeNotes + One(CloseNote(b))
  }

  lemma TallyUpdate<T>(pcs: seq<Pc<T>>, i: nat, x: Pc<T>)
    requires i < |pcs|
    ensures Moved(TallyOf(pcs), pcs[i], x, TallyOf(pcs[i := x]))
  {
    CountUpdate(pcs, i, x, AsleepOnEmpty);
    CountUpdate(pcs, i, x, PopComing);
    CountUpdate(pcs, i, x, EmptyNote);
    CountUpdate(pcs, i, x, AsleepOnFull);
    CountUpdate(pcs, i, x, PushComing);
    CountUpdate(pcs, i, x, FullNote);
    CountUpdate(pcs, i, x, ClearNote);
    CountUpdate(pcs, i, x, CloseEmptyNote);
    CountUpdate(pcs, i, x, CloseNote);
  }

  /** notify_one on `not_empty_`. */
  lemma TallyWakeEmpty<T>(pcs: seq<Pc<T>>, pick: nat)
    ensures var t := TallyOf(pcs);
            TallyOf(WakeOne(pcs, AsleepOnEmpty, pick)) ==
            if t.popAsleep == 0 then t else t.(popAsleep := t.popAsleep - 1, popComing := t.popComing + 1)
  {
    CountZero(pcs, AsleepOnEmpty);
    var k := Sleeper(pcs, AsleepOnEmpty, pick);
    if k < |pcs| { TallyUpdate(pcs, k, Woken(pcs[k], false)); }
  }

  /** notify_one on `not_full_`. */
  lemma TallyWakeFull<T>(pcs: seq<Pc<T>>, pick: nat)
    ensures var t := TallyOf(pcs);
            TallyOf(WakeOne(pcs, AsleepOnFull, pick)) ==
            if t.pushAsleep == 0 then t else t.(pushAsleep := t.pushAsleep - 1, pushComing := t.pushComing + 1)
  {
    CountZero(pcs, AsleepOnFull);
    var k := Sleeper(pcs, AsleepOnFull, pick);
    if k < |pcs| { TallyUpdate(pcs, k, Woken(pcs[k], false)); }
  }

  lemma {:induction false} TallyWakeAllEmpty<T>(pcs: seq<Pc<T>>)
    ensures var t := TallyOf(pcs);
            TallyOf(WakeAll(pcs, AsleepOnEmpty)) == t.(popAsleep := 0, popComing := t.popComing + t.popAsleep)
  {
    if pcs != [] {
      var k := |pcs| - 1;
      TallyWakeAllEmpty(pcs[..k]);
      assert WakeAll(pcs, AsleepOnEmpty)[..k] == WakeAll(pcs[..k], AsleepOnEmpty);
    }
  }

  lemma {:induction false} TallyWakeAllFull<T>(pcs: seq<Pc<T>>)
    ensures var t := TallyOf(pcs);
            TallyOf(WakeAll(pcs, AsleepOnFull)) == t.(pushAsleep := 0, pushComing := t.pushComing + t.pushAsleep)
  {
    if pcs != [] {
      var k := |pcs| - 1;
      TallyWakeAllFull(pcs[..k]);
      assert WakeAll(pcs, AsleepOnFull)[..k] == WakeAll(pcs[..k], AsleepOnFull);
    }
  }

  // ---------- The invariant ----------

  /** No popper sleeps through an item: stored items are covered by woken poppers and pending notifications. */
  ghost predicate PoppersCovered<T>(s: State<T>, t: Tally) {
    t.popAsleep > 0 ==>
      if s.closed then t.closeEmptyNotes > 0 else |s.contents| <= t.popComing + t.emptyNotes
  }

  /** No pusher sleeps through a free slot; a pending notification of a clear or a close covers everything. */
  ghost predicate PushersCovered<T>(c: Config, s: State<T>, t: Tally) {
    t.pushAsleep > 0 ==>
      c.policy == Reject &&
      if s.closed then t.closeNotes > 0
      else t.clearNotes > 0 || c.cap - |s.contents| <= t.pushComing + t.fullNotes
  }

  ghost predicate Flow<T>(c: Config, s: State<T>) {
    && |s.contents| <= c.cap
    && s.accepted == s.gone + s.contents
    && (c.policy == Reject && !s.cleared ==> s.popped == s.gone)
  }

  ghost predicate Inv<T>(c: Config, s: State<T>) {
    PoppersCovered(s, TallyOf(s.pcs)) && PushersCovered(c, s, TallyOf(s.pcs)) && Flow(c, s)
  }
}
