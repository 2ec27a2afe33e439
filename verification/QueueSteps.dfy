/**
 Which steps of the queue's loops lead where.  A push or a pop gives up only for the reasons below, whatever the other
 threads do; a lost race goes round the loop with the current cursor.
 */
module QueueSteps {
  import opened Common
  import opened QueueModel
  import opened QueueInvariant
  import opened QueueTheorems

  /**
   In every reachable state, for every next step: a push starts to give up only because the queue was closed when it
   began, or at a sequence load with the current cursor in hand and no slot free.
   */
  lemma PushGivesUpOnlyWhenFullOrClosed<T>(cap: nat, threads: nat, run: seq<Action<T>>, a: Action<T>)
    requires cap >= 2 && a.i < |Exec(Init(cap, threads), run).pcs|
    ensures var s := Exec(Init(cap, threads), run); var pc, pc' := s.pcs[a.i], Step(s, a).pcs[a.i];
            pc'.PushReject? && !pc.PushReject? ==>
              pc.PushClosed? || (pc.PushSeq? && pc.try.pos == s.q.enq && !SlotFree(s))
  {
    Reachable(cap, threads, run);
    var s := Exec(Init(cap, threads), run);
    if s.pcs[a.i].PushSeq? { PushFailureExplained(s, a.i, a.spurious); }
  }

  lemma PopGivesUpOnlyWhenNothingIsReady<T>(cap: nat, threads: nat, run: seq<Action<T>>, a: Action<T>)
    requires cap >= 2 && a.i < |Exec(Init(cap, threads), run).pcs|
    ensures var s := Exec(Init(cap, threads), run); var pc, pc' := s.pcs[a.i], Step(s, a).pcs[a.i];
            pc'.PopReject? && !pc.PopReject? ==> pc.PopSeq? && pc.try.pos == s.q.deq && !ItemReady(s)
  {
    Reachable(cap, threads, run);
    var s := Exec(Init(cap, threads), run);
    if s.pcs[a.i].PopSeq? { PopFailureExplained(s, a.i, a.spurious); }
  }

  lemma Reachable<T>(cap: nat, threads: nat, run: seq<Action<T>>)
    requires cap >= 2
    ensures Inv(Exec(Init(cap, threads), run)) && |Exec(Init(cap, threads), run).q.cells| == cap
  {
    InitInv<T>(cap, threads);
    ExecInv(Init(cap, threads), run);
    RunCapacity(Init(cap, threads), run);
  }

  /** The outcome of a compare-exchange on a cursor, as the language has it. */
  datatype Race = Won | Lost | Slipped

  ghost predicate Outcome(cursor: nat, expected: nat, spurious: bool, r: Race) {
    match r
    case Won => cursor == expected && !spurious
    case Slipped => cursor == expected && spurious
    case Lost => cursor != expected
  }

  /**
   A push's compare-exchange: the winner holds the ticket and its value is accepted; a loser goes back to the sequence
   load with the current cursor; a spurious failure goes back with the same position.  Nothing else happens.
   */
  lemma PushRace<T>(s: State<T>, a: Action<T>, r: Race)
    requires |s.q.cells| > 0 && a.i < |s.pcs| && s.pcs[a.i].PushCas?
    requires Outcome(s.q.enq, s.pcs[a.i].try.pos, a.spurious, r)
    ensures var pc, s' := s.pcs[a.i], Step(s, a); var pc' := s'.pcs[a.i];
            if r.Won? then
              pc' == PushMove(pc.v, s.q.enq) && s'.q == s.q.(enq := s.q.enq + 1) && s'.accepted == s.accepted + [pc.v]
            else
              && pc'.PushSeq? && pc'.v == pc.v && pc'.try.pos == s.q.enq && s'.q == s.q && s'.accepted == s.accepted
              && pc'.try.retries == pc.try.retries + One(r.Lost?)
    ensures forall j :: 0 <= j < |s.pcs| && j != a.i ==> Step(s, a).pcs[j] == s.pcs[j]
  {
  }

  lemma PopRace<T>(s: State<T>, a: Action<T>, r: Race)
    requires |s.q.cells| > 0 && a.i < |s.pcs| && s.pcs[a.i].PopCas?
    requires Outcome(s.q.deq, s.pcs[a.i].try.pos, a.spurious, r)
    ensures var pc, s' := s.pcs[a.i], Step(s, a); var pc' := s'.pcs[a.i];
            if r.Won? then pc' == PopMove(s.q.deq) && s'.q == s.q.(deq := s.q.deq + 1)
            else
              && pc'.PopSeq? && pc'.try.pos == s.q.deq && s'.q == s.q
              && pc'.try.retries == pc.try.retries + One(r.Lost?)
    ensures forall j :: 0 <= j < |s.pcs| && j != a.i ==> Step(s, a).pcs[j] == s.pcs[j]
  {
  }

  /**
   At the sequence load, in every reachable state: with the current cursor and a slot free a push goes on to the
   compare-exchange; with an old cursor it goes on, or back for the current one.
   */
  lemma PushLooks<T>(cap: nat, threads: nat, run: seq<Action<T>>, a: Action<T>)
    requires cap >= 2 && a.i < |Exec(Init(cap, threads), run).pcs| && Exec(Init(cap, threads), run).pcs[a.i].PushSeq?
    ensures var s := Exec(Init(cap, threads), run); var pc, pc' := s.pcs[a.i], Step(s, a).pcs[a.i];
            if pc.try.pos == s.q.enq then
              pc' == if SlotFree(s) then PushCas(pc.v, pc.try) else PushReject
            else
              pc.try.pos < s.q.enq && (pc' == PushCas(pc.v, pc.try) || pc' == PushReload(pc.v, pc.try))
  {
    Reachable(cap, threads, run);
    var s := Exec(Init(cap, threads), run);
    assert ThreadOk(s, s.pcs[a.i]);
    PushFailureExplained(s, a.i, a.spurious);
    FreeStamp(s);
  }

  lemma PopLooks<T>(cap: nat, threads: nat, run: seq<Action<T>>, a: Action<T>)
    requires cap >= 2 && a.i < |Exec(Init(cap, threads), run).pcs| && Exec(Init(cap, threads), run).pcs[a.i].PopSeq?
    ensures var s := Exec(Init(cap, threads), run); var pc, pc' := s.pcs[a.i], Step(s, a).pcs[a.i];
            if pc.try.pos == s.q.deq then
              pc' == if ItemReady(s) then PopCas(pc.try) else PopReject
            else
              pc.try.pos < s.q.deq && (pc' == PopCas(pc.try) || pc' == PopReload(pc.try))
  {
    Reachable(cap, threads, run);
    var s := Exec(Init(cap, threads), run);
    assert ThreadOk(s, s.pcs[a.i]);
    PopFailureExplained(s, a.i, a.spurious);
    ReadyStamp(s);
  }

  /** A reload comes back to the sequence load with the current cursor. */
  lemma Reloads<T>(s: State<T>, a: Action<T>)
    requires |s.q.cells| > 0 && a.i < |s.pcs|
    ensures var pc, pc' := s.pcs[a.i], Step(s, a).pcs[a.i];
            && (pc.PushReload? ==> pc'.PushSeq? && pc'.v == pc.v && pc'.try.pos == s.q.enq)
            && (pc.PopReload? ==> pc'.PopSeq? && pc'.try.pos == s.q.deq)
            && (pc.PushReload? || pc.PopReload? ==> Step(s, a).q == s.q)
  {
  }

  /** With no other step in between, approximateSize answers the exact number of tickets handed out and not yet taken. */
  lemma ApproximateSizeIsExactAlone<T>(s: State<T>, i: nat)
    requires Inv(s) && i < |s.pcs| && s.pcs[i].Idle?
    ensures Times(s, Action(i, ApproximateSize, false), 3) ==
            s.(pcs := s.pcs[i := Idle(Size(s.q.enq - s.q.deq))])
  {
    var go := Action(i, Call<T>.ApproximateSize, false);
    var enqueued, gap := s.q.enq, s.q.enq - s.q.deq;
    assert Times(s, go, 1) == Step(s, go) == s.(pcs := s.pcs[i := SizeEnq]);
    GotoTwice(s.pcs, i, SizeEnq, SizeDeq(enqueued, gap));
    assert Times(s, go, 2) == Step(Times(s, go, 1), go) == s.(pcs := s.pcs[i := SizeDeq(enqueued, gap)]);
    GotoTwice(s.pcs, i, SizeDeq(enqueued, gap), Idle(Size(gap)));
    assert Times(s, go, 3) == Step(Times(s, go, 2), go);
  }

  /** Its first load is of the enqueue cursor, and its answer that cursor less the dequeue cursor at the second. */
  lemma ApproximateSizeLoads<T>(s: State<T>, a: Action<T>)
    requires Inv(s) && a.i < |s.pcs|
    ensures var pc, pc' := s.pcs[a.i], Step(s, a).pcs[a.i];
            && (pc.SizeEnq? ==> pc'.SizeDeq? && pc'.enqueued == s.q.enq)
            && (pc.SizeDeq? ==>
                  pc' == Idle(Size(if pc.enqueued <= s.q.deq then 0 else pc.enqueued - s.q.deq)))
  {
    assert ThreadOk(s, s.pcs[a.i]);
  }
}
