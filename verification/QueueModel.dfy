/**
 The bounded multi-producer multi-consumer queue as a transition system.

 `Shared` is what the threads share; every thread is one program counter, and `Step` performs the next
 atomic operation of one thread.  A run is any sequence of actions, so it is any interleaving of any
 number of threads.  `accepted` and `delivered` are history: the value moved in under each enqueue
 ticket, and what every finished pop returned.
 */
module QueueModel {
  import opened Common

  datatype Cell<T> = Cell(sequence: nat, storage: Option<T>)

  datatype Stats = Stats(pushes: nat, pops: nat, failedPushes: nat, failedPops: nat, closedPushes: nat)

  datatype Shared<T> = Shared(cells: seq<Cell<T>>, enq: nat, deq: nat, closed: bool, stats: Stats)

  /** A retry loop: the position held, the first position loaded, and the retries that were not spurious. */
  datatype Try = Try(pos: nat, first: nat, retries: nat)

  datatype Outcome<T> = Nothing | Pushed(ok: bool) | Popped(value: Option<T>) | Size(size: nat)

  datatype Pc<T> =
    | Idle(last: Outcome<T>)
    | PushCheck(v: T)            // load closed_
    | PushClosed                 // count closed_pushes_
    | PushLoad(v: T)             // load enqueue_pos_
    | PushSeq(v: T, try: Try)    // load the cell's sequence
    | PushCas(v: T, try: Try)    // compare-exchange enqueue_pos_
    | PushReload(v: T, try: Try) // load enqueue_pos_ again
    | PushMove(v: T, pos: nat)   // construct the value in the cell
    | PushPublish(pos: nat)      // store sequence pos + 1
    | PushCount                  // count pushes_
    | PushReject                 // count failed_pushes_
    | PopLoad
    | PopSeq(try: Try)
    | PopCas(try: Try)
    | PopReload(try: Try)
    | PopMove(pos: nat)          // move the value out and destroy it
    | PopRelease(pos: nat, r: T) // store sequence pos + capacity
    | PopCount(pos: nat, r: T)   // count pops_ and return
    | PopReject
    | SizeEnq                    // load enqueue_pos_
    | SizeDeq(enqueued: nat, gap: nat) // load dequeue_pos_; `gap` is the true gap at the first load

  /** Thread `thread` returned `value`, which it took under dequeue ticket `ticket`. */
  datatype Delivery<T> = Delivery(thread: nat, ticket: nat, value: T)

  datatype State<T> = State(q: Shared<T>, pcs: seq<Pc<T>>, accepted: seq<T>, delivered: seq<Delivery<T>>)

  datatype Call<T> = TryPush(v: T) | TryPop | ApproximateSize | Close

  /** Thread `i` performs one atomic operation.  `call` is read when it is idle, `spurious` at a weak CAS. */
  datatype Action<T> = Action(i: nat, call: Call<T>, spurious: bool)

  function Slot(t: nat, cap: nat): nat
    requires cap > 0
  {
    t % cap
  }

  function CellOf<T>(q: Shared<T>, t: nat): Cell<T>
    requires |q.cells| > 0
  {
    q.cells[Slot(t, |q.cells|)]
  }

  function SetCell<T>(q: Shared<T>, t: nat, c: Cell<T>): Shared<T>
    requires |q.cells| > 0
  {
    q.(cells := q.cells[Slot(t, |q.cells|) := c])
  }

  function Init<T>(cap: nat, threads: nat): State<T> {
    State(Shared(seq(cap, i requires 0 <= i => Cell(i, None)), 0, 0, false, Stats(0, 0, 0, 0, 0)),
          seq(threads, _ => Idle(Nothing)), [], [])
  }

  function Goto<T>(s: State<T>, i: nat, pc: Pc<T>): State<T>
    requires i < |s.pcs|
  {
    s.(pcs := s.pcs[i := pc])
  }

  function Retry(t: Try, pos: nat): Try { Try(pos, t.first, t.retries + 1) }

  function Step<T>(s: State<T>, a: Action<T>): State<T> {
    if a.i >= |s.pcs| || |s.q.cells| == 0 then s
    else if s.pcs[a.i].Idle? then Begin(s, a.i, a.call)
    else if IsPush(s.pcs[a.i]) then PushStep(s, a.i, a.spurious)
    else PopStep(s, a.i, a.spurious)
  }

  predicate IsPush<T>(pc: Pc<T>) {
    pc.PushCheck? || pc.PushClosed? || pc.PushLoad? || pc.PushSeq? || pc.PushCas? || pc.PushReload? ||
    pc.PushMove? || pc.PushPublish? || pc.PushCount? || pc.PushReject?
  }

  function Begin<T>(s: State<T>, i: nat, call: Call<T>): State<T>
    requires i < |s.pcs|
  {
    match call
    case TryPush(v) => Goto(s, i, PushCheck(v))
    case TryPop => Goto(s, i, PopLoad)
    case ApproximateSize => Goto(s, i, SizeEnq)
    case Close => s.(q := s.q.(closed := true))
  }

  function PushStep<T>(s: State<T>, i: nat, spurious: bool): State<T>
    requires i < |s.pcs| && |s.q.cells| > 0 && IsPush(s.pcs[i])
  {
    var q := s.q;
    match s.pcs[i]
    case PushCheck(v) => Goto(s, i, if q.closed then PushClosed else PushLoad(v))
    case PushClosed =>
      Goto(s, i, PushReject).(q := q.(stats := q.stats.(closedPushes := q.stats.closedPushes + 1)))
    case PushLoad(v) => Goto(s, i, PushSeq(v, Try(q.enq, q.enq, 0)))
    case PushSeq(v, t) =>
      var diff := CellOf(q, t.pos).sequence - t.pos;
      Goto(s, i, if diff == 0 then PushCas(v, t) else if diff < 0 then PushReject else PushReload(v, t))
    case PushCas(v, t) =>
      if q.enq != t.pos then Goto(s, i, PushSeq(v, Retry(t, q.enq)))
      else if spurious then Goto(s, i, PushSeq(v, t))
      else Goto(s, i, PushMove(v, t.pos)).(q := q.(enq := t.pos + 1), accepted := s.accepted + [v])
    case PushReload(v, t) => Goto(s, i, PushSeq(v, Retry(t, q.enq)))
    case PushMove(v, pos) =>
      Goto(s, i, PushPublish(pos)).(q := SetCell(q, pos, CellOf(q, pos).(storage := Some(v))))
    case PushPublish(pos) =>
      Goto(s, i, PushCount).(q := SetCell(q, pos, CellOf(q, pos).(sequence := pos + 1)))
    case PushCount =>
      Goto(s, i, Idle(Pushed(true))).(q := q.(stats := q.stats.(pushes := q.stats.pushes + 1)))
    case PushReject =>
      Goto(s, i, Idle(Pushed(false))).(q := q.(stats := q.stats.(failedPushes := q.stats.failedPushes + 1)))
  }

  function PopStep<T>(s: State<T>, i: nat, spurious: bool): State<T>
    requires i < |s.pcs| && |s.q.cells| > 0 && !IsPush(s.pcs[i]) && !s.pcs[i].Idle?
  {
    var q := s.q;
    match s.pcs[i]
    case PopLoad => Goto(s, i, PopSeq(Try(q.deq, q.deq, 0)))
    case PopSeq(t) =>
      var diff := CellOf(q, t.pos).sequence - (t.pos + 1);
      Goto(s, i, if diff == 0 then PopCas(t) else if diff < 0 then PopReject else PopReload(t))
    case PopCas(t) =>
      if q.deq != t.pos then Goto(s, i, PopSeq(Retry(t, q.deq)))
      else if spurious then Goto(s, i, PopSeq(t))
      else Goto(s, i, PopMove(t.pos)).(q := q.(deq := t.pos + 1))
    case PopReload(t) => Goto(s, i, PopSeq(Retry(t, q.deq)))
    case PopMove(pos) =>
      var c := CellOf(q, pos);
      // Reading dead storage has no meaning in the program; the invariant shows it never happens.
      if c.storage.None? then s
      else Goto(s, i, PopRelease(pos, c.storage.value)).(q := SetCell(q, pos, c.(storage := None)))
    case PopRelease(pos, r) =>
      Goto(s, i, PopCount(pos, r)).(q := SetCell(q, pos, CellOf(q, pos).(sequence := pos + |q.cells|)))
    case PopCount(pos, r) =>
      Goto(s, i, Idle(Popped(Some(r)))).(
        q := q.(stats := q.stats.(pops := q.stats.pops + 1)),
        delivered := s.delivered + [Delivery(i, pos, r)])
    case PopReject =>
      Goto(s, i, Idle(Popped(None))).(q := q.(stats := q.stats.(failedPops := q.stats.failedPops + 1)))
    case SizeEnq => Goto(s, i, SizeDeq(q.enq, if q.enq < q.deq then 0 else q.enq - q.deq))
    case SizeDeq(e, gap) => Goto(s, i, Idle(Size(ApproximateSizeOf(e, q.deq, |q.cells|))))
  }

  function ApproximateSizeOf(enqueued: nat, dequeued: nat, cap: nat): nat {
    if enqueued < dequeued then 0
    else if enqueued - dequeued < cap then enqueued - dequeued else cap
  }

  /** No thread is between two atomic operations of a call. */
  predicate Quiescent<T>(s: State<T>) {
    forall i :: 0 <= i < |s.pcs| ==> s.pcs[i].Idle?
  }

  /** The state after a run. */
  function Exec<T>(s: State<T>, run: seq<Action<T>>): State<T> {
    if run == [] then s else Step(Exec(s, run[..|run| - 1]), run[|run| - 1])
  }
}
