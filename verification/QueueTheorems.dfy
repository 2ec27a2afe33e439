/** What the queue promises in every interleaving: each accepted value is handed over once, to one consumer. */
module QueueTheorems {
  import opened Common
  import opened QueueModel
  import opened QueueInvariant

  // ---------- Hand-over ----------

  ghost predicate Delivered<T>(s: State<T>, t: nat) {
    exists k :: 0 <= k < |s.delivered| && s.delivered[k].ticket == t
  }

  ghost predicate SomeReturning<T>(s: State<T>, t: nat) {
    exists i :: 0 <= i < |s.pcs| && Returning(s.pcs[i], t)
  }

  /** Every delivery carries the value accepted under its ticket, and the ticket was really won. */
  ghost predicate DeliveriesMatch<T>(s: State<T>) {
    forall k :: 0 <= k < |s.delivered| ==>
      s.delivered[k].ticket < s.q.deq &&
      s.delivered[k].ticket < |s.accepted| &&
      s.delivered[k].value == s.accepted[s.delivered[k].ticket]
  }

  /** No ticket is delivered twice, nor delivered and still held by a consumer. */
  ghost predicate AtMostOnce<T>(s: State<T>) {
    (forall k, l :: 0 <= k < l < |s.delivered| ==> s.delivered[k].ticket != s.delivered[l].ticket) &&
    (forall k, i :: 0 <= k < |s.delivered| && 0 <= i < |s.pcs| ==> !Returning(s.pcs[i], s.delivered[k].ticket))
  }

  /** Every ticket below the dequeue cursor was delivered or is in a consumer's hands. */
  ghost predicate NothingLost<T>(s: State<T>) {
    forall t: nat :: t < s.q.deq ==> Delivered(s, t) || SomeReturning(s, t)
  }

  /** A thread receives values in the order in which they were accepted. */
  ghost predicate InOrder<T>(s: State<T>) {
    (forall k, l :: 0 <= k < l < |s.delivered| && s.delivered[k].thread == s.delivered[l].thread ==>
                      s.delivered[k].ticket < s.delivered[l].ticket) &&
    (forall k, t: nat ::
       0 <= k < |s.delivered| && s.delivered[k].thread < |s.pcs| && Returning(s.pcs[s.delivered[k].thread], t) ==>
       s.delivered[k].ticket < t)
  }

  ghost predicate HandOver<T>(s: State<T>) {
    DeliveriesMatch(s) && AtMostOnce(s) && NothingLost(s) && InOrder(s)
  }

  /** What one atomic operation of thread `i` can do to tickets and deliveries. */
  ghost predicate Effect<T>(s: State<T>, i: nat, s': State<T>)
    requires i < |s.pcs|
  {
    && |s'.pcs| == |s.pcs|
    && s'.pcs == s.pcs[i := s'.pcs[i]]
    && |s'.q.cells| == |s.q.cells|
    && s.accepted <= s'.accepted
    && (s'.q.deq == s.q.deq || (s'.q.deq == s.q.deq + 1 && s'.pcs[i] == PopMove(s.q.deq)))
    && (if s.pcs[i].PopCount?
        then s'.delivered == s.delivered + [Delivery(i, s.pcs[i].pos, s.pcs[i].r)] && s'.pcs[i].Idle?
        else s'.delivered == s.delivered)
    && (forall t :: Returning(s.pcs[i], t) && !s.pcs[i].PopCount? ==> Returning(s'.pcs[i], t))
    && (forall t :: Returning(s'.pcs[i], t) ==> Returning(s.pcs[i], t) || t == s.q.deq)
  }

  lemma StepEffect<T>(s: State<T>, a: Action<T>)
    requires a.i < |s.pcs| && Inv(s)
    ensures Effect(s, a.i, Step(s, a))
  {
    assert ThreadOk(s, s.pcs[a.i]);
    if s.pcs[a.i].Idle? {
      assert s.pcs[a.i := s.pcs[a.i]] == s.pcs;
    } else if IsPush(s.pcs[a.i]) {
      PushEffect(s, a.i, a.spurious);
    } else {
      PopEffect(s, a.i, a.spurious);
    }
  }

  lemma PushEffect<T>(s: State<T>, i: nat, spurious: bool)
    requires Inv(s) && i < |s.pcs| && IsPush(s.pcs[i])
    ensures Effect(s, i, PushStep(s, i, spurious))
  {
  }

  lemma PopEffect<T>(s: State<T>, i: nat, spurious: bool)
    requires Inv(s) && i < |s.pcs| && !IsPush(s.pcs[i]) && !s.pcs[i].Idle?
    ensures Effect(s, i, PopStep(s, i, spurious))
  {
    assert ThreadOk(s, s.pcs[i]);
  }

  lemma NothingLostStep<T>(s: State<T>, i: nat, s': State<T>)
    requires i < |s.pcs| && Effect(s, i, s') && NothingLost(s)
    ensures NothingLost(s')
  {
    forall t: nat | t < s'.q.deq ensures Delivered(s', t) || SomeReturning(s', t) {
      if t == s.q.deq {
        assert Returning(s'.pcs[i], t);
      } else if Delivered(s, t) {
        var k :| 0 <= k < |s.delivered| && s.delivered[k].ticket == t;
        assert s'.delivered[k].ticket == t;
      } else {
        var j :| 0 <= j < |s.pcs| && Returning(s.pcs[j], t);
        if j == i && s.pcs[i].PopCount? {
          assert s'.delivered[|s.delivered|].ticket == t;
        } else {
          assert Returning(s'.pcs[j], t);
        }
      }
    }
  }

  lemma DeliveriesStep<T>(s: State<T>, i: nat, s': State<T>)
    requires Inv(s) && HandOver(s) && i < |s.pcs| && Effect(s, i, s')
    ensures DeliveriesMatch(s')
    ensures AtMostOnce(s')
  {
    var pc := s.pcs[i];
    assert ThreadOk(s, pc);
    if pc.PopCount? { assert Returning(pc, pc.pos); }
    forall k, j | 0 <= k < |s'.delivered| && 0 <= j < |s'.pcs|
      ensures !Returning(s'.pcs[j], s'.delivered[k].ticket)
    {
      if k < |s.delivered| {
        assert !Returning(s.pcs[j], s.delivered[k].ticket);
      } else if j != i {
        assert !Clash(pc, s.pcs[j]);
      }
    }
  }

  lemma OrderStep<T>(s: State<T>, i: nat, s': State<T>)
    requires Inv(s) && HandOver(s) && i < |s.pcs| && Effect(s, i, s')
    ensures InOrder(s')
  {
    var pc := s.pcs[i];
    assert ThreadOk(s, pc);
    if pc.PopCount? { assert Returning(pc, pc.pos); }
    forall k, t: nat | 0 <= k < |s'.delivered| && s'.delivered[k].thread < |s'.pcs|
                       && Returning(s'.pcs[s'.delivered[k].thread], t)
      ensures s'.delivered[k].ticket < t
    {
      if k < |s.delivered| && s.delivered[k].thread == i && !Returning(pc, t) {
        assert t == s.q.deq;
      }
    }
  }

  lemma HandOverStep<T>(s: State<T>, a: Action<T>)
    requires Inv(s) && HandOver(s)
    ensures HandOver(Step(s, a))
  {
    if a.i < |s.pcs| {
      StepEffect(s, a);
      NothingLostStep(s, a.i, Step(s, a));
      DeliveriesStep(s, a.i, Step(s, a));
      OrderStep(s, a.i, Step(s, a));
    }
  }

  lemma {:induction false} HandOverRun<T>(cap: nat, threads: nat, run: seq<Action<T>>)
    requires cap >= 2
    ensures Inv(Exec(Init(cap, threads), run)) && HandOver(Exec(Init(cap, threads), run))
  {
    if run == [] {
      InitInv<T>(cap, threads);
    } else {
      var before := run[..|run| - 1];
      HandOverRun(cap, threads, before);
      StepInv(Exec(Init(cap, threads), before), run[|run| - 1]);
      HandOverStep(Exec(Init(cap, threads), before), run[|run| - 1]);
    }
  }

  // ---------- Main results over every run ----------

  /**
   For capacity at least 2, every pop that ever returned a value returned the value accepted under its ticket,
   no ticket is returned twice, and each thread's results come in ticket order.
   */
  lemma EveryDeliveryIsTheAcceptedValue<T>(cap: nat, threads: nat, run: seq<Action<T>>)
    requires cap >= 2
    ensures var s := Exec(Init(cap, threads), run);
            && (forall k :: 0 <= k < |s.delivered| ==>
                  s.delivered[k].ticket < |s.accepted| &&
                  s.delivered[k].value == s.accepted[s.delivered[k].ticket])
            && (forall k, l :: 0 <= k < l < |s.delivered| ==> s.delivered[k].ticket != s.delivered[l].ticket)
            && (forall k, l :: 0 <= k < l < |s.delivered| && s.delivered[k].thread == s.delivered[l].thread ==>
                  s.delivered[k].ticket < s.delivered[l].ticket)
  {
    HandOverRun(cap, threads, run);
  }

  /** Where the value accepted under ticket `t` can be. */
  datatype Place = BeingStored | Stored | BeingTaken | Handed

  ghost predicate At<T>(s: State<T>, t: nat, p: Place) {
    match p
    case BeingStored => SomeFilling(s.pcs, t)
    case Stored =>
      s.q.deq <= t < |s.accepted| && |s.q.cells| > 0 && CellOf(s.q, t) == Cell(t + 1, Some(s.accepted[t]))
    case BeingTaken => SomeReturning(s, t)
    case Handed => Delivered(s, t)
  }

  /** Conservation: every accepted value is in exactly one place. */
  lemma EveryAcceptedValueIsInOnePlace<T>(cap: nat, threads: nat, run: seq<Action<T>>, t: nat) returns (p: Place)
    requires cap >= 2 && t < |Exec(Init(cap, threads), run).accepted|
    ensures forall p' :: At(Exec(Init(cap, threads), run), t, p') <==> p' == p
  {
    HandOverRun(cap, threads, run);
    var s := Exec(Init(cap, threads), run);
    assert forall i :: 0 <= i < |s.pcs| ==> ThreadOk(s, s.pcs[i]);
    RunCapacity(Init(cap, threads), run);
    if t < s.q.deq {
      p := if Delivered(s, t) then Handed else BeingTaken;
    } else {
      assert CellOk(s, t);
      p := if SomeFilling(s.pcs, t) then BeingStored else Stored;
    }
  }

  lemma {:induction false} RunCapacity<T>(s: State<T>, run: seq<Action<T>>)
    ensures |Exec(s, run).q.cells| == |s.q.cells| && |Exec(s, run).pcs| == |s.pcs|
  {
    if run != [] {
      RunCapacity(s, run[..|run| - 1]);
      StepCapacity(Exec(s, run[..|run| - 1]), run[|run| - 1]);
    }
  }

  lemma StepCapacity<T>(s: State<T>, a: Action<T>)
    ensures |Step(s, a).q.cells| == |s.q.cells| && |Step(s, a).pcs| == |s.pcs|
  {
    if a.i < |s.pcs| && |s.q.cells| > 0 && !s.pcs[a.i].Idle? {
      if IsPush(s.pcs[a.i]) {
        PushCapacity(s, a.i, a.spurious);
      } else {
        PopCapacity(s, a.i, a.spurious);
      }
    }
  }

  lemma PushCapacity<T>(s: State<T>, i: nat, spurious: bool)
    requires i < |s.pcs| && |s.q.cells| > 0 && IsPush(s.pcs[i])
    ensures var s' := PushStep(s, i, spurious); |s'.q.cells| == |s.q.cells| && |s'.pcs| == |s.pcs|
  {
  }

  lemma PopCapacity<T>(s: State<T>, i: nat, spurious: bool)
    requires i < |s.pcs| && |s.q.cells| > 0 && !IsPush(s.pcs[i]) && !s.pcs[i].Idle?
    ensures var s' := PopStep(s, i, spurious); |s'.q.cells| == |s.q.cells| && |s'.pcs| == |s.pcs|
  {
  }

  // ---------- Cursors and sequences only grow ----------

  ghost predicate NotBefore<T>(s: State<T>, s': State<T>) {
    |s'.q.cells| == |s.q.cells| &&
    s.q.enq <= s'.q.enq && s.q.deq <= s'.q.deq &&
    s.accepted <= s'.accepted && s.delivered <= s'.delivered && (s.q.closed ==> s'.q.closed) &&
    (forall c :: 0 <= c < |s.q.cells| ==> s.q.cells[c].sequence <= s'.q.cells[c].sequence)
  }

  lemma StepGrows<T>(s: State<T>, a: Action<T>)
    requires Inv(s)
    ensures NotBefore(s, Step(s, a))
  {
    if a.i < |s.pcs| {
      if IsPush(s.pcs[a.i]) {
        PushGrows(s, a.i, a.spurious);
      } else if !s.pcs[a.i].Idle? {
        PopGrows(s, a.i, a.spurious);
      }
    }
  }

  lemma PushGrows<T>(s: State<T>, i: nat, spurious: bool)
    requires Inv(s) && i < |s.pcs| && IsPush(s.pcs[i])
    ensures NotBefore(s, PushStep(s, i, spurious))
  {
    assert ThreadOk(s, s.pcs[i]);
  }

  lemma PopGrows<T>(s: State<T>, i: nat, spurious: bool)
    requires Inv(s) && i < |s.pcs| && !IsPush(s.pcs[i]) && !s.pcs[i].Idle?
    ensures NotBefore(s, PopStep(s, i, spurious))
  {
    assert ThreadOk(s, s.pcs[i]);
  }

  lemma {:induction false} RunGrows<T>(s: State<T>, run: seq<Action<T>>)
    requires Inv(s)
    ensures NotBefore(s, Exec(s, run))
  {
    if run != [] {
      var before := run[..|run| - 1];
      RunGrows(s, before);
      ExecInv(s, before);
      StepGrows(Exec(s, before), run[|run| - 1]);
    }
  }

  // ---------- Failures are explained ----------

  ghost predicate SlotFree<T>(s: State<T>) {
    s.q.enq - s.q.deq != |s.q.cells| &&
    !(s.q.enq >= |s.q.cells| && SomeDraining(s.pcs, s.q.enq - |s.q.cells|))
  }

  ghost predicate ItemReady<T>(s: State<T>) {
    s.q.enq != s.q.deq && !SomeFilling(s.pcs, s.q.deq)
  }

  /** The sequence stamp of the next cell to fill says exactly whether a slot is free. */
  lemma FreeStamp<T>(s: State<T>)
    requires Inv(s)
    ensures CellOf(s.q, s.q.enq).sequence == s.q.enq <==> SlotFree(s)
    ensures CellOf(s.q, s.q.enq).sequence < s.q.enq <==> !SlotFree(s)
  {
    var E, cap := s.q.enq, |s.q.cells|;
    NotAhead(s);
    if E == s.q.deq + cap {
      SlotNextRound(s.q.deq, cap);
      assert CellOk(s, s.q.deq);
    } else {
      assert CellOk(s, E);
      if E >= cap && SomeDraining(s.pcs, E - cap) {
        var i :| 0 <= i < |s.pcs| && Draining(s.pcs[i], E - cap);
        assert ThreadOk(s, s.pcs[i]);
        DrainerRound(s, i);
      }
    }
  }

  lemma ReadyStamp<T>(s: State<T>)
    requires Inv(s)
    ensures CellOf(s.q, s.q.deq).sequence == s.q.deq + 1 <==> ItemReady(s)
    ensures CellOf(s.q, s.q.deq).sequence < s.q.deq + 1 <==> !ItemReady(s)
  {
    assert CellOk(s, s.q.deq);
    if SomeFilling(s.pcs, s.q.deq) {
      var i :| 0 <= i < |s.pcs| && Filling(s.pcs[i], s.q.deq);
      assert ThreadOk(s, s.pcs[i]);
    }
  }

  /**
   A push gives up as "full" exactly when, at its sequence load, it holds the current enqueue cursor and either
   the ring is full or the consumer of ticket pos - capacity has not finished.
   */
  lemma PushFailureExplained<T>(s: State<T>, i: nat, spurious: bool)
    requires Inv(s) && i < |s.pcs| && s.pcs[i].PushSeq?
    ensures PushStep(s, i, spurious).pcs[i].PushReject? <==> s.pcs[i].try.pos == s.q.enq && !SlotFree(s)
  {
    assert ThreadOk(s, s.pcs[i]);
    SequenceAt(s, s.pcs[i].try.pos);
    FreeStamp(s);
  }

  /**
   A pop gives up as "empty" exactly when, at its sequence load, it holds the current dequeue cursor and either
   nothing is enqueued or the producer of that very ticket has not published yet.
   */
  lemma PopFailureExplained<T>(s: State<T>, i: nat, spurious: bool)
    requires Inv(s) && i < |s.pcs| && s.pcs[i].PopSeq?
    ensures PopStep(s, i, spurious).pcs[i].PopReject? <==> s.pcs[i].try.pos == s.q.deq && !ItemReady(s)
  {
    assert ThreadOk(s, s.pcs[i]);
    var pos := s.pcs[i].try.pos;
    SequenceAt(s, pos);
    ReadyStamp(s);
  }

  // ---------- Progress ----------

  ghost predicate InPushLoop<T>(pc: Pc<T>) { pc.PushSeq? || pc.PushCas? || pc.PushReload? }
  ghost predicate InPopLoop<T>(pc: Pc<T>) { pc.PopSeq? || pc.PopCas? || pc.PopReload? }

  /** In every reachable state, a retry that is not spurious comes back with a strictly larger position. */
  lemma RetryAdvances<T>(cap: nat, threads: nat, run: seq<Action<T>>, a: Action<T>)
    requires cap >= 2 && a.i < |Exec(Init(cap, threads), run).pcs|
    requires var pc := Exec(Init(cap, threads), run).pcs[a.i]; InPushLoop(pc) || InPopLoop(pc)
    ensures var s := Exec(Init(cap, threads), run); var pc, pc' := s.pcs[a.i], Step(s, a).pcs[a.i];
            (InPushLoop(pc') || InPopLoop(pc')) ==>
            && pc'.try.first == pc.try.first
            && ((pc'.try.retries == pc.try.retries && pc'.try.pos == pc.try.pos) ||
                (pc'.try.retries == pc.try.retries + 1 && pc'.try.pos > pc.try.pos))
  {
    InitInv<T>(cap, threads);
    ExecInv(Init(cap, threads), run);
    var s := Exec(Init(cap, threads), run);
    assert ThreadOk(s, s.pcs[a.i]);
  }

  /**
   In every reachable state, the retries of a call are at most the tickets other threads won since the call
   first loaded the cursor.
   */
  lemma RetriesArePaidByOthers<T>(cap: nat, threads: nat, run: seq<Action<T>>, i: nat)
    requires cap >= 2 && i < |Exec(Init(cap, threads), run).pcs|
    ensures var s := Exec(Init(cap, threads), run);
            && (InPushLoop(s.pcs[i]) ==> s.pcs[i].try.first + s.pcs[i].try.retries <= s.q.enq)
            && (InPopLoop(s.pcs[i]) ==> s.pcs[i].try.first + s.pcs[i].try.retries <= s.q.deq)
  {
    InitInv<T>(cap, threads);
    ExecInv(Init(cap, threads), run);
    var s := Exec(Init(cap, threads), run);
    assert ThreadOk(s, s.pcs[i]);
  }

  /** approximateSize stays within the true gap at both of its loads, and its clamp to capacity never bites. */
  lemma ApproximateSizeIsBounded<T>(cap: nat, threads: nat, run: seq<Action<T>>, i: nat, spurious: bool)
    requires cap >= 2 && i < |Exec(Init(cap, threads), run).pcs| && Exec(Init(cap, threads), run).pcs[i].SizeDeq?
    ensures var s := Exec(Init(cap, threads), run);
            |s.q.cells| == cap &&
            var pc, n := s.pcs[i], PopStep(s, i, spurious).pcs[i].last.size;
            && n <= pc.gap && n <= s.q.enq - s.q.deq
            && n == if pc.enqueued < s.q.deq then 0 else pc.enqueued - s.q.deq
  {
    InitInv<T>(cap, threads);
    ExecInv(Init(cap, threads), run);
    RunCapacity(Init(cap, threads), run);
    var s := Exec(Init(cap, threads), run);
    assert ThreadOk(s, s.pcs[i]);
  }

  // ---------- Storage life time, and the capacity it needs ----------

  /** Storage is constructed only when dead and moved out and destroyed only when live. */
  predicate StorageSafe<T>(s: State<T>) {
    forall i :: 0 <= i < |s.pcs| && |s.q.cells| > 0 ==>
      (s.pcs[i].PushMove? ==> CellOf(s.q, s.pcs[i].pos).storage.None?) &&
      (s.pcs[i].PopMove? ==> CellOf(s.q, s.pcs[i].pos).storage.Some?)
  }

  ghost predicate AlwaysStorageSafe<T(!new)>(cap: nat) {
    forall threads: nat, run: seq<Action<T>> :: StorageSafe(Exec(Init(cap, threads), run))
  }

  function Iterate<A>(f: A -> A, x: A, n: nat): A {
    if n == 0 then x else f(Iterate(f, x, n - 1))
  }

  lemma {:induction false} IterateAdd<A>(f: A -> A, x: A, m: nat, n: nat)
    ensures Iterate(f, x, m + n) == Iterate(f, Iterate(f, x, m), n)
  {
    if n > 0 { IterateAdd(f, x, m, n - 1); }
  }

  function Doing<T>(a: Action<T>): State<T> -> State<T> { (s: State<T>) => Step(s, a) }

  function Times<T>(s: State<T>, a: Action<T>, n: nat): State<T> {
    Iterate(Doing(a), s, n)
  }

  function Repeat<T>(a: Action<T>, n: nat): seq<Action<T>> {
    if n == 0 then [] else Repeat(a, n - 1) + [a]
  }

  lemma {:induction false} ExecTimes<T>(s: State<T>, a: Action<T>, n: nat)
    ensures Exec(s, Repeat(a, n)) == Times(s, a, n)
  {
    if n > 0 {
      ExecTimes(s, a, n - 1);
      assert Repeat(a, n)[..|Repeat(a, n)| - 1] == Repeat(a, n - 1);
    }
  }

  /** A thread moves twice; the others are stalled. */
  lemma GotoTwice<T>(pcs: seq<Pc<T>>, i: nat, x: Pc<T>, y: Pc<T>)
    requires i < |pcs|
    ensures pcs[i := x][i := y] == pcs[i := y]
  {
  }

  /** Five steps take a producer that finds a matching stamp to the point of constructing its value. */
  lemma LonePush<T>(s: State<T>, i: nat, v: T)
    requires i < |s.pcs| && s.pcs[i].Idle? && |s.q.cells| > 0 && !s.q.closed
    requires CellOf(s.q, s.q.enq).sequence == s.q.enq
    ensures Times(s, Action(i, TryPush(v), false), 5) ==
            State(s.q.(enq := s.q.enq + 1), s.pcs[i := PushMove(v, s.q.enq)], s.accepted + [v], s.delivered)
  {
    var go := Action(i, TryPush(v), false);
    var t := Try(s.q.enq, s.q.enq, 0);
    assert Times(s, go, 1) == Step(s, go) == s.(pcs := s.pcs[i := PushCheck(v)]);
    GotoTwice(s.pcs, i, PushCheck(v), PushLoad(v));
    assert Times(s, go, 2) == Step(Times(s, go, 1), go) == s.(pcs := s.pcs[i := PushLoad(v)]);
    GotoTwice(s.pcs, i, PushLoad(v), PushSeq(v, t));
    assert Times(s, go, 3) == Step(Times(s, go, 2), go) == s.(pcs := s.pcs[i := PushSeq(v, t)]);
    GotoTwice(s.pcs, i, PushSeq(v, t), PushCas(v, t));
    assert Times(s, go, 4) == Step(Times(s, go, 3), go) == s.(pcs := s.pcs[i := PushCas(v, t)]);
    GotoTwice(s.pcs, i, PushCas(v, t), PushMove(v, s.q.enq));
    assert Times(s, go, 5) == Step(Times(s, go, 4), go);
  }

  /** Three more steps finish the push. */
  lemma LonePublish<T>(s: State<T>, i: nat, v: T)
    requires i < |s.pcs| && s.pcs[i].PushMove? && |s.q.cells| > 0
    ensures var s' := Times(s, Action(i, TryPush(v), false), 3); var pos := s.pcs[i].pos;
            && s'.pcs == s.pcs[i := Idle(Pushed(true))] && s'.accepted == s.accepted
            && s'.q.enq == s.q.enq && s'.q.deq == s.q.deq && s'.q.closed == s.q.closed
            && s'.q.cells == s.q.cells[Slot(pos, |s.q.cells|) := Cell(pos + 1, Some(s.pcs[i].v))]
  {
    var go := Action(i, TryPush(v), false);
    var pos := s.pcs[i].pos;
    assert Times(s, go, 1) == Step(s, go);
    assert Times(s, go, 1).pcs == s.pcs[i := PushPublish(pos)];
    assert Times(s, go, 2) == Step(Times(s, go, 1), go);
    assert Times(s, go, 2).pcs == s.pcs[i := PushCount];
    assert Times(s, go, 3) == Step(Times(s, go, 2), go);
  }

  /** Three steps take a consumer to its answer "empty" when the stamp it finds is too old. */
  lemma LonePop<T>(s: State<T>, i: nat)
    requires i < |s.pcs| && s.pcs[i].Idle? && |s.q.cells| > 0
    requires CellOf(s.q, s.q.deq).sequence < s.q.deq + 1
    ensures Times(s, Action(i, TryPop, false), 3) == s.(pcs := s.pcs[i := PopReject])
  {
    var go := Action(i, Call<T>.TryPop, false);
    var t := Try(s.q.deq, s.q.deq, 0);
    assert Times(s, go, 1) == Step(s, go) == s.(pcs := s.pcs[i := PopLoad]);
    GotoTwice(s.pcs, i, PopLoad, PopSeq(t));
    assert Times(s, go, 2) == Step(Times(s, go, 1), go) == s.(pcs := s.pcs[i := PopSeq(t)]);
    GotoTwice(s.pcs, i, PopSeq(t), PopReject);
    assert Times(s, go, 3) == Step(Times(s, go, 2), go);
  }

  /**
   The constructor accepts capacity 1, but at capacity 1 the stamp "filled" (pos + 1) is also the stamp "free for
   the next round" (pos + capacity): a second push constructs over the first, unread value.
   */
  lemma CapacityOneOverwrites<T>(v: T)
    ensures !StorageSafe(Exec(Init(1, 1), Repeat(Action(0, TryPush(v), false), 13)))
  {
    var go := Action(0, TryPush(v), false);
    var s0 := Init<T>(1, 1);
    WholePush(s0, 0, v);
    var s8 := Times(s0, go, 8);
    assert s8.q.cells == [Cell(1, Some(v))];
    LonePush(s8, 0, v);
    IterateAdd(Doing(go), s0, 8, 5);
    ExecTimes(s0, go, 13);
    var s13 := Times(s0, go, 13);
    assert s13.pcs[0].PushMove? && CellOf(s13.q, 1).storage == Some(v);
  }

  lemma {:induction false} ExecConcat<T>(s: State<T>, run: seq<Action<T>>, more: seq<Action<T>>)
    ensures Exec(s, run + more) == Exec(Exec(s, run), more)
  {
    hide Step;
    if more == [] {
      assert run + more == run;
    } else {
      ExecConcat(s, run, more[..|more| - 1]);
      assert (run + more)[..|run + more| - 1] == run + more[..|more| - 1];
    }
  }

  /** Three threads: one wins ticket 0 and stalls, the next pushes to the end, the third finds the queue "empty". */
  function StalledProducer<T>(v: T, w: T): seq<Action<T>> {
    Repeat(Action(0, TryPush(v), false), 5) + Repeat(Action(1, TryPush(w), false), 8) + Repeat(Action(2, TryPop, false), 3)
  }

  lemma StalledState<T>(v: T, w: T)
    ensures var s := Times(Times(Init(2, 3), Action(0, TryPush(v), false), 5), Action(1, TryPush(w), false), 8);
            && s.pcs == [PushMove(v, 0), Idle(Pushed(true)), Idle(Nothing)] && s.accepted == [v, w]
            && s.q.cells == [Cell(0, None), Cell(2, Some(w))] && s.q.enq == 2 && s.q.deq == 0
  {
    LonePush(Init<T>(2, 3), 0, v);
    WholePush(Times(Init<T>(2, 3), Action(0, TryPush(v), false), 5), 1, w);
  }

  /**
   "Empty" does not mean that nothing is stored: behind a stalled producer a pop gives up although a later value
   was accepted and published.  `PopFailureExplained` says exactly when it does.
   */
  lemma EmptyAnswerWithAnItemStored<T>(v: T, w: T)
    ensures var s := Exec(Init<T>(2, 3), StalledProducer(v, w));
            |s.pcs| == 3 && s.pcs[2].PopReject? && At(s, 1, Stored) && s.accepted == [v, w]
  {
    var a, b, c := Action(0, TryPush(v), false), Action(1, TryPush(w), false), Action(2, Call<T>.TryPop, false);
    var s0 := Init<T>(2, 3);
    var s13 := Times(Times(s0, a, 5), b, 8);
    StalledState(v, w);
    LonePop(s13, 2);
    ExecTimes(s0, a, 5);
    ExecTimes(Times(s0, a, 5), b, 8);
    ExecTimes(s13, c, 3);
    ExecConcat(s0, Repeat(a, 5), Repeat(b, 8));
    ExecConcat(s0, Repeat(a, 5) + Repeat(b, 8), Repeat(c, 3));
  }

  /** Four steps take a consumer that finds a published cell to the point of moving the value out. */
  lemma LoneTake<T>(s: State<T>, i: nat)
    requires i < |s.pcs| && s.pcs[i].Idle? && |s.q.cells| > 0
    requires CellOf(s.q, s.q.deq).sequence == s.q.deq + 1
    ensures Times(s, Action(i, TryPop, false), 4) ==
            s.(q := s.q.(deq := s.q.deq + 1), pcs := s.pcs[i := PopMove(s.q.deq)])
  {
    var go := Action(i, Call<T>.TryPop, false);
    var t := Try(s.q.deq, s.q.deq, 0);
    assert Times(s, go, 1) == Step(s, go) == s.(pcs := s.pcs[i := PopLoad]);
    GotoTwice(s.pcs, i, PopLoad, PopSeq(t));
    assert Times(s, go, 2) == Step(Times(s, go, 1), go) == s.(pcs := s.pcs[i := PopSeq(t)]);
    GotoTwice(s.pcs, i, PopSeq(t), PopCas(t));
    assert Times(s, go, 3) == Step(Times(s, go, 2), go) == s.(pcs := s.pcs[i := PopCas(t)]);
    GotoTwice(s.pcs, i, PopCas(t), PopMove(s.q.deq));
    assert Times(s, go, 4) == Step(Times(s, go, 3), go);
  }

  /** Four steps take a producer to its answer "full" when the stamp it finds is too old. */
  lemma LoneReject<T>(s: State<T>, i: nat, v: T)
    requires i < |s.pcs| && s.pcs[i].Idle? && |s.q.cells| > 0 && !s.q.closed
    requires CellOf(s.q, s.q.enq).sequence < s.q.enq
    ensures Times(s, Action(i, TryPush(v), false), 4) == s.(pcs := s.pcs[i := PushReject])
  {
    var go := Action(i, TryPush(v), false);
    var t := Try(s.q.enq, s.q.enq, 0);
    assert Times(s, go, 1) == Step(s, go) == s.(pcs := s.pcs[i := PushCheck(v)]);
    GotoTwice(s.pcs, i, PushCheck(v), PushLoad(v));
    assert Times(s, go, 2) == Step(Times(s, go, 1), go) == s.(pcs := s.pcs[i := PushLoad(v)]);
    GotoTwice(s.pcs, i, PushLoad(v), PushSeq(v, t));
    assert Times(s, go, 3) == Step(Times(s, go, 2), go) == s.(pcs := s.pcs[i := PushSeq(v, t)]);
    GotoTwice(s.pcs, i, PushSeq(v, t), PushReject);
    assert Times(s, go, 4) == Step(Times(s, go, 3), go);
  }

  /** A whole push by one thread into a free cell. */
  lemma WholePush<T>(s: State<T>, i: nat, v: T)
    requires i < |s.pcs| && s.pcs[i].Idle? && |s.q.cells| > 0 && !s.q.closed
    requires CellOf(s.q, s.q.enq).sequence == s.q.enq
    ensures var s' := Times(s, Action(i, TryPush(v), false), 8);
            && s'.pcs == s.pcs[i := Idle(Pushed(true))] && s'.accepted == s.accepted + [v]
            && s'.q.enq == s.q.enq + 1 && s'.q.deq == s.q.deq && !s'.q.closed
            && s'.q.cells == s.q.cells[Slot(s.q.enq, |s.q.cells|) := Cell(s.q.enq + 1, Some(v))]
  {
    var go := Action(i, TryPush(v), false);
    LonePush(s, i, v);
    LonePublish(Times(s, go, 5), i, v);
    IterateAdd(Doing(go), s, 5, 3);
  }

  /** Three threads: one fills both cells, the next wins dequeue ticket 0 and stalls, the third finds the ring "full". */
  function StalledConsumer<T>(v: T, w: T, x: T): seq<Action<T>> {
    Repeat(Action(0, TryPush(v), false), 8) + Repeat(Action(0, TryPush(w), false), 8) +
    Repeat(Action(1, TryPop, false), 4) + Repeat(Action(2, TryPush(x), false), 4)
  }

  lemma FilledState<T>(v: T, w: T)
    ensures var s := Times(Times(Init(2, 3), Action(0, TryPush(v), false), 8), Action(0, TryPush(w), false), 8);
            && s.pcs == [Idle(Pushed(true)), Idle(Nothing), Idle(Nothing)] && !s.q.closed
            && s.q.cells == [Cell(1, Some(v)), Cell(2, Some(w))] && s.q.enq == 2 && s.q.deq == 0
  {
    WholePush(Init<T>(2, 3), 0, v);
    WholePush(Times(Init<T>(2, 3), Action(0, TryPush(v), false), 8), 0, w);
  }

  /**
   "Full" does not mean that `capacity` items are stored: behind a stalled consumer a push gives up although only one
   accepted value is left in the ring.  `PushFailureExplained` says exactly when it does.
   */
  lemma FullAnswerWithRoomLeft<T>(v: T, w: T, x: T)
    ensures var s := Exec(Init<T>(2, 3), StalledConsumer(v, w, x));
            |s.pcs| == 3 && s.pcs[2].PushReject? && |s.q.cells| == 2 && s.q.enq - s.q.deq == 1
  {
    var a, b := Action(0, TryPush(v), false), Action(0, TryPush(w), false);
    var c, d := Action(1, Call<T>.TryPop, false), Action(2, TryPush(x), false);
    var s0 := Init<T>(2, 3);
    var s8 := Times(s0, a, 8);
    var s16 := Times(s8, b, 8);
    FilledState(v, w);
    LoneTake(s16, 1);
    var s20 := Times(s16, c, 4);
    LoneReject(s20, 2, x);
    ExecTimes(s0, a, 8);
    ExecTimes(s8, b, 8);
    ExecTimes(s16, c, 4);
    ExecTimes(s20, d, 4);
    var r1, r2, r3 := Repeat(a, 8), Repeat(b, 8), Repeat(c, 4);
    ExecConcat(s0, r1, r2);
    ExecConcat(s0, r1 + r2, r3);
    ExecConcat(s0, r1 + r2 + r3, Repeat(d, 4));
  }

  /** The queue's storage is safe in every interleaving if and only if the capacity is at least 2. */
  lemma StorageSafeIffCapacityAtLeastTwo<T(!new)>(cap: nat, v: T)
    requires cap > 0
    ensures AlwaysStorageSafe<T>(cap) <==> cap >= 2
  {
    if cap >= 2 {
      forall threads: nat, run: seq<Action<T>> ensures StorageSafe(Exec(Init(cap, threads), run)) {
        InitInv<T>(cap, threads);
        ExecInv(Init(cap, threads), run);
        var s := Exec(Init(cap, threads), run);
        forall i | 0 <= i < |s.pcs| ensures ThreadOk(s, s.pcs[i]) {}
      }
    } else {
      CapacityOneOverwrites(v);
    }
  }
}
