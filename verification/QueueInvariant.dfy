/** The cell-sequence invariant, and its preservation by every atomic operation of every thread. */
module QueueInvariant {
  import opened Common
  import opened QueueModel

  // ---------- Tickets and slots ----------

  lemma MulBound(cap: int, d: int)
    requires cap > 0
    ensures d >= 1 ==> cap * d >= cap
    ensures d <= -1 ==> cap * d <= -cap
  {
  }

  lemma ModUnique(x: nat, cap: nat, q: nat, r: nat)
    requires cap > 0 && r < cap && x == cap * q + r
    ensures x % cap == r
  {
    var d := x / cap - q;
    assert cap * d == r - x % cap by {
      assert x == cap * (x / cap) + x % cap;
    }
    MulBound(cap, d);
  }

  /** Different tickets less than one capacity apart use different cells. */
  lemma SlotInjective(a: nat, b: nat, cap: nat)
    requires a < b < a + cap
    ensures Slot(a, cap) != Slot(b, cap)
  {
    var q, r := a / cap, a % cap + (b - a);
    if r < cap {
      ModUnique(b, cap, q, r);
    } else {
      assert cap * (q + 1) == cap * q + cap;
      ModUnique(b, cap, q + 1, r - cap);
    }
  }

  lemma SlotNextRound(t: nat, cap: nat)
    requires cap > 0
    ensures Slot(t + cap, cap) == Slot(t, cap)
  {
    assert t + cap == cap * (t / cap + 1) + t % cap;
    ModUnique(t + cap, cap, t / cap + 1, t % cap);
  }

  // ---------- Who holds a ticket ----------

  predicate Filling<T>(pc: Pc<T>, t: nat) {
    (pc.PushMove? || pc.PushPublish?) && pc.pos == t
  }

  predicate Draining<T>(pc: Pc<T>, t: nat) {
    (pc.PopMove? || pc.PopRelease?) && pc.pos == t
  }

  /** Won ticket `t` and has not returned its value yet. */
  predicate Returning<T>(pc: Pc<T>, t: nat) {
    (pc.PopMove? || pc.PopRelease? || pc.PopCount?) && pc.pos == t
  }

  ghost predicate SomeFilling<T>(pcs: seq<Pc<T>>, t: nat) {
    exists i :: 0 <= i < |pcs| && Filling(pcs[i], t)
  }

  ghost predicate SomeDraining<T>(pcs: seq<Pc<T>>, t: nat) {
    exists i :: 0 <= i < |pcs| && Draining(pcs[i], t)
  }

  // ---------- The invariant ----------

  ghost predicate Shape<T>(s: State<T>) {
    |s.q.cells| >= 2 &&
    s.q.deq <= s.q.enq <= s.q.deq + |s.q.cells| &&
    |s.accepted| == s.q.enq
  }

  /** The cell of ticket `t`, where `t` is one of the `capacity` tickets from the dequeue cursor on. */
  ghost predicate CellOk<T>(s: State<T>, t: nat)
    requires Shape(s)
  {
    var c := CellOf(s.q, t);
    if t < s.q.enq then
      (c.sequence == t + 1 && c.storage == Some(s.accepted[t])) ||
      (c.sequence == t && SomeFilling(s.pcs, t))
    else
      (c.sequence == t && c.storage == None) ||
      (t >= |s.q.cells| && c.sequence == t - |s.q.cells| + 1 && SomeDraining(s.pcs, t - |s.q.cells|))
  }

  ghost predicate TryOk(t: Try, cursor: nat) {
    t.first + t.retries <= t.pos <= cursor
  }

  ghost predicate ThreadOk<T>(s: State<T>, pc: Pc<T>)
    requires Shape(s)
  {
    var q := s.q;
    match pc
    case PushSeq(_, t) => TryOk(t, q.enq)
    case PushCas(_, t) => TryOk(t, q.enq) && (t.pos == q.enq ==> CellOf(q, t.pos).sequence == t.pos)
    case PushReload(_, t) => TryOk(t, q.enq) && t.pos < q.enq
    case PushMove(v, pos) => q.deq <= pos < q.enq && CellOf(q, pos) == Cell(pos, None) && s.accepted[pos] == v
    case PushPublish(pos) => q.deq <= pos < q.enq && CellOf(q, pos) == Cell(pos, Some(s.accepted[pos]))
    case PopSeq(t) => TryOk(t, q.deq)
    case PopCas(t) => TryOk(t, q.deq) && (t.pos == q.deq ==> CellOf(q, t.pos).sequence == t.pos + 1)
    case PopReload(t) => TryOk(t, q.deq) && t.pos < q.deq
    case PopMove(pos) =>
      pos < q.deq <= pos + |q.cells| && CellOf(q, pos) == Cell(pos + 1, Some(s.accepted[pos]))
    case PopRelease(pos, r) =>
      pos < q.deq <= pos + |q.cells| && CellOf(q, pos) == Cell(pos + 1, None) && r == s.accepted[pos]
    case PopCount(pos, r) => pos < q.deq && r == s.accepted[pos]
    case SizeDeq(e, gap) => e <= q.enq && e - q.deq <= gap <= |q.cells|
    case _ => true
  }

  ghost predicate CellsOk<T>(s: State<T>)
    requires Shape(s)
  {
    forall t: nat :: s.q.deq <= t < s.q.deq + |s.q.cells| ==> CellOk(s, t)
  }

  ghost predicate ThreadsOk<T>(s: State<T>)
    requires Shape(s)
  {
    forall i :: 0 <= i < |s.pcs| ==> ThreadOk(s, s.pcs[i])
  }

  /** No ticket is held twice. */
  ghost predicate Clash<T>(a: Pc<T>, b: Pc<T>) {
    ((a.PushMove? || a.PushPublish?) && Filling(b, a.pos)) ||
    ((a.PopMove? || a.PopRelease? || a.PopCount?) && Returning(b, a.pos))
  }

  ghost predicate Exclusive<T>(pcs: seq<Pc<T>>) {
    forall i, j :: 0 <= i < |pcs| && 0 <= j < |pcs| && i != j ==> !Clash(pcs[i], pcs[j])
  }

  ghost predicate Inv<T>(s: State<T>) {
    Shape(s) && CellsOk(s) && ThreadsOk(s) && Exclusive(s.pcs)
  }

  // ---------- Preservation ----------

  lemma KeepFilling<T>(pcs: seq<Pc<T>>, i: nat, x: Pc<T>, t: nat)
    requires i < |pcs| && SomeFilling(pcs, t) && (Filling(pcs[i], t) ==> Filling(x, t))
    ensures SomeFilling(pcs[i := x], t)
  {
    var j :| 0 <= j < |pcs| && Filling(pcs[j], t);
    assert Filling(pcs[i := x][j], t);
  }

  lemma KeepDraining<T>(pcs: seq<Pc<T>>, i: nat, x: Pc<T>, t: nat)
    requires i < |pcs| && SomeDraining(pcs, t) && (Draining(pcs[i], t) ==> Draining(x, t))
    ensures SomeDraining(pcs[i := x], t)
  {
    var j :| 0 <= j < |pcs| && Draining(pcs[j], t);
    assert Draining(pcs[i := x][j], t);
  }

  /** A step that leaves a ticket's cell alone, and its holder in place, keeps what is known of the cell. */
  lemma KeepCell<T>(s: State<T>, s': State<T>, i: nat, t: nat)
    requires Shape(s) && Shape(s') && CellOk(s, t) && i < |s.pcs| && |s'.pcs| == |s.pcs|
    requires |s'.q.cells| == |s.q.cells| && CellOf(s'.q, t) == CellOf(s.q, t)
    requires t < s'.q.enq <==> t < s.q.enq
    requires t < s.q.enq ==> s'.accepted[t] == s.accepted[t]
    requires s'.pcs == s.pcs[i := s'.pcs[i]]
    requires Filling(s.pcs[i], t) ==> Filling(s'.pcs[i], t)
    requires t >= |s.q.cells| && Draining(s.pcs[i], t - |s.q.cells|) ==> Draining(s'.pcs[i], t - |s.q.cells|)
    ensures CellOk(s', t)
  {
    if SomeFilling(s.pcs, t) { KeepFilling(s.pcs, i, s'.pcs[i], t); }
    if t >= |s.q.cells| && SomeDraining(s.pcs, t - |s.q.cells|) {
      KeepDraining(s.pcs, i, s'.pcs[i], t - |s.q.cells|);
    }
  }

  lemma InitInv<T>(cap: nat, threads: nat)
    requires cap >= 2
    ensures Inv(Init<T>(cap, threads))
  {
    var s := Init<T>(cap, threads);
    forall t: nat | t < cap ensures CellOk(s, t) {
      ModUnique(t, cap, 0, t);
    }
  }

  /** A step that only moves one thread, keeps the tickets it holds, and at most touches the statistics. */
  lemma LocalStep<T>(s: State<T>, s': State<T>, i: nat)
    requires Inv(s) && i < |s.pcs| && |s'.pcs| == |s.pcs|
    requires s'.q.cells == s.q.cells && s'.q.enq == s.q.enq && s'.q.deq == s.q.deq && s'.accepted == s.accepted
    requires s'.pcs == s.pcs[i := s'.pcs[i]]
    requires ThreadOk(s, s'.pcs[i])
    requires forall t :: Filling(s'.pcs[i], t) <==> Filling(s.pcs[i], t)
    requires forall t :: Draining(s'.pcs[i], t) <==> Draining(s.pcs[i], t)
    requires forall t :: Returning(s'.pcs[i], t) ==> Returning(s.pcs[i], t)
    ensures Inv(s')
  {
    forall t: nat | s.q.deq <= t < s.q.deq + |s.q.cells| ensures CellOk(s', t) {
      assert CellOk(s, t);
      KeepCell(s, s', i, t);
    }
    forall j | 0 <= j < |s'.pcs| ensures ThreadOk(s', s'.pcs[j]) {
      if j != i { assert ThreadOk(s, s.pcs[j]); }
    }
    LocalExclusive(s.pcs, i, s'.pcs[i]);
  }

  lemma LocalExclusive<T>(pcs: seq<Pc<T>>, i: nat, x: Pc<T>)
    requires i < |pcs| && Exclusive(pcs)
    requires forall t :: Filling(x, t) ==> Filling(pcs[i], t)
    requires forall t :: Returning(x, t) ==> Returning(pcs[i], t)
    ensures Exclusive(pcs[i := x])
  {
    var pcs' := pcs[i := x];
    forall j, k | 0 <= j < |pcs'| && 0 <= k < |pcs'| && j != k ensures !Clash(pcs'[j], pcs'[k]) {
      assert !Clash(pcs[j], pcs[k]);
      if x.PushMove? || x.PushPublish? { assert Filling(pcs[i], x.pos); }
      if x.PopMove? || x.PopRelease? || x.PopCount? { assert Returning(pcs[i], x.pos); }
    }
  }

  lemma OldestStamp<T>(s: State<T>)
    requires Inv(s) && s.q.deq < s.q.enq
    ensures CellOf(s.q, s.q.deq).sequence <= s.q.deq + 1
  {
    assert CellOk(s, s.q.deq);
  }

  /** The free cell found by a producer whose compare-exchange is about to succeed. */
  lemma FreeCell<T>(s: State<T>)
    requires Inv(s) && CellOf(s.q, s.q.enq).sequence == s.q.enq
    ensures s.q.enq < s.q.deq + |s.q.cells| && CellOf(s.q, s.q.enq) == Cell(s.q.enq, None)
  {
    var cap := |s.q.cells|;
    if s.q.enq == s.q.deq + cap {
      SlotNextRound(s.q.deq, cap);
      OldestStamp(s);
    } else {
      assert CellOk(s, s.q.enq);
    }
  }

  lemma WinPush<T>(s: State<T>, i: nat, s': State<T>)
    requires Inv(s) && i < |s.pcs| && s.pcs[i].PushCas? && s.pcs[i].try.pos == s.q.enq
    requires s' == PushStep(s, i, false)
    ensures Inv(s')
  {
    var E, cap, v := s.q.enq, |s.q.cells|, s.pcs[i].v;
    assert ThreadOk(s, s.pcs[i]);
    FreeCell(s);
    assert Filling(s'.pcs[i], E);
    forall t: nat | s'.q.deq <= t < s'.q.deq + cap ensures CellOk(s', t) {
      assert CellOk(s, t);
      if t != E { KeepCell(s, s', i, t); }
    }
    forall j | 0 <= j < |s'.pcs| ensures ThreadOk(s', s'.pcs[j]) {
      if j != i { assert ThreadOk(s, s.pcs[j]); }
    }
    forall j, k | 0 <= j < |s'.pcs| && 0 <= k < |s'.pcs| && j != k ensures !Clash(s'.pcs[j], s'.pcs[k]) {
      assert !Clash(s.pcs[j], s.pcs[k]);
      assert ThreadOk(s, s.pcs[j]) && ThreadOk(s, s.pcs[k]);
    }
  }

  /** A producer changes the cell of its own ticket; nobody else's cell is touched. */
  lemma FillerAlone<T>(s: State<T>, i: nat, j: nat)
    requires Inv(s) && i < |s.pcs| && j < |s.pcs| && i != j
    requires s.pcs[i].PushMove? || s.pcs[i].PushPublish?
    ensures var pc := s.pcs[j];
            (pc.PushMove? || pc.PushPublish? || pc.PopMove? || pc.PopRelease?) ==>
            Slot(pc.pos, |s.q.cells|) != Slot(s.pcs[i].pos, |s.q.cells|)
  {
    var pc, pos, cap := s.pcs[j], s.pcs[i].pos, |s.q.cells|;
    assert ThreadOk(s, s.pcs[i]) && ThreadOk(s, pc);
    assert !Clash(s.pcs[i], pc) && !Clash(pc, s.pcs[i]);
    if pc.PushMove? || pc.PushPublish? {
      SlotInjective(if pc.pos < pos then pc.pos else pos, if pc.pos < pos then pos else pc.pos, cap);
    } else if pc.PopMove? || pc.PopRelease? {
      if pos == pc.pos + 1 { SlotInjective(pc.pos, pos, cap); }
    }
  }

  lemma Fill<T>(s: State<T>, i: nat, s': State<T>)
    requires Inv(s) && i < |s.pcs| && s.pcs[i].PushMove?
    requires s' == PushStep(s, i, false)
    ensures Inv(s')
  {
    var pos, cap := s.pcs[i].pos, |s.q.cells|;
    assert ThreadOk(s, s.pcs[i]);
    assert Filling(s'.pcs[i], pos);
    forall t: nat | s.q.deq <= t < s.q.deq + cap ensures CellOk(s', t) {
      assert CellOk(s, t);
      if t < pos { SlotInjective(t, pos, cap); } else if pos < t { SlotInjective(pos, t, cap); }
      if t != pos { KeepCell(s, s', i, t); }
    }
    forall j | 0 <= j < |s'.pcs| ensures ThreadOk(s', s'.pcs[j]) {
      if j != i { assert ThreadOk(s, s.pcs[j]); FillerAlone(s, i, j); }
    }
    LocalExclusive(s.pcs, i, s'.pcs[i]);
  }

  lemma Publish<T>(s: State<T>, i: nat, s': State<T>)
    requires Inv(s) && i < |s.pcs| && s.pcs[i].PushPublish?
    requires s' == PushStep(s, i, false)
    ensures Inv(s')
  {
    var pos, cap := s.pcs[i].pos, |s.q.cells|;
    assert ThreadOk(s, s.pcs[i]);
    forall t: nat | s.q.deq <= t < s.q.deq + cap ensures CellOk(s', t) {
      assert CellOk(s, t);
      if t < pos { SlotInjective(t, pos, cap); } else if pos < t { SlotInjective(pos, t, cap); }
      if t != pos { KeepCell(s, s', i, t); }
    }
    forall j | 0 <= j < |s'.pcs| ensures ThreadOk(s', s'.pcs[j]) {
      if j != i {
        assert ThreadOk(s, s.pcs[j]);
        FillerAlone(s, i, j);
        if pos == s.q.deq + 1 { SlotInjective(s.q.deq, pos, cap); }
      }
    }
    LocalExclusive(s.pcs, i, s'.pcs[i]);
  }

  /** The published cell found by a consumer whose compare-exchange is about to succeed. */
  lemma PublishedCell<T>(s: State<T>)
    requires Inv(s) && CellOf(s.q, s.q.deq).sequence == s.q.deq + 1
    ensures s.q.deq < s.q.enq && CellOf(s.q, s.q.deq) == Cell(s.q.deq + 1, Some(s.accepted[s.q.deq]))
  {
    assert CellOk(s, s.q.deq);
  }

  lemma WinPop<T>(s: State<T>, i: nat, s': State<T>)
    requires Inv(s) && i < |s.pcs| && s.pcs[i].PopCas? && s.pcs[i].try.pos == s.q.deq
    requires s' == PopStep(s, i, false)
    ensures Inv(s')
  {
    var D, cap := s.q.deq, |s.q.cells|;
    assert ThreadOk(s, s.pcs[i]);
    PublishedCell(s);
    assert Draining(s'.pcs[i], D);
    SlotNextRound(D, cap);
    forall t: nat | D + 1 <= t < D + 1 + cap ensures CellOk(s', t) {
      if t < D + cap {
        assert CellOk(s, t);
        KeepCell(s, s', i, t);
      }
    }
    forall j | 0 <= j < |s'.pcs| ensures ThreadOk(s', s'.pcs[j]) {
      if j != i { WinPopOthers(s, i, s', j); }
    }
    forall j, k | 0 <= j < |s'.pcs| && 0 <= k < |s'.pcs| && j != k ensures !Clash(s'.pcs[j], s'.pcs[k]) {
      assert !Clash(s.pcs[j], s.pcs[k]);
      assert ThreadOk(s, s.pcs[j]) && ThreadOk(s, s.pcs[k]);
    }
  }

  lemma WinPopOthers<T>(s: State<T>, i: nat, s': State<T>, j: nat)
    requires Inv(s) && i < |s.pcs| && s.pcs[i].PopCas? && s.pcs[i].try.pos == s.q.deq
    requires CellOf(s.q, s.q.deq).sequence == s.q.deq + 1 && s.q.deq < s.q.enq
    requires s' == PopStep(s, i, false)
    requires j < |s.pcs| && j != i
    ensures Shape(s') && ThreadOk(s', s.pcs[j])
  {
    var pc := s.pcs[j];
    assert ThreadOk(s, pc);
    if (pc.PopMove? || pc.PopRelease?) && pc.pos + |s.q.cells| == s.q.deq { SlotNextRound(pc.pos, |s.q.cells|); }
  }

  /** While a consumer drains ticket `pos`, ticket `pos + capacity` of the same cell has not been issued. */
  lemma DrainerRound<T>(s: State<T>, i: nat)
    requires Inv(s) && i < |s.pcs| && (s.pcs[i].PopMove? || s.pcs[i].PopRelease?)
    ensures s.q.enq <= s.pcs[i].pos + |s.q.cells|
    ensures Slot(s.pcs[i].pos + |s.q.cells|, |s.q.cells|) == Slot(s.pcs[i].pos, |s.q.cells|)
  {
    assert ThreadOk(s, s.pcs[i]);
    SlotNextRound(s.pcs[i].pos, |s.q.cells|);
    assert CellOk(s, s.pcs[i].pos + |s.q.cells|);
  }

  lemma DrainerAlone<T>(s: State<T>, i: nat, j: nat)
    requires Inv(s) && i < |s.pcs| && j < |s.pcs| && i != j
    requires s.pcs[i].PopMove? || s.pcs[i].PopRelease?
    ensures var pc := s.pcs[j];
            (pc.PushMove? || pc.PushPublish? || pc.PopMove? || pc.PopRelease?) ==>
            Slot(pc.pos, |s.q.cells|) != Slot(s.pcs[i].pos, |s.q.cells|)
  {
    var pc, pos, cap := s.pcs[j], s.pcs[i].pos, |s.q.cells|;
    if pc.PushMove? || pc.PushPublish? {
      FillerAlone(s, j, i);
    } else if pc.PopMove? || pc.PopRelease? {
      assert ThreadOk(s, s.pcs[i]) && ThreadOk(s, pc);
      assert !Clash(s.pcs[i], pc);
      SlotInjective(if pc.pos < pos then pc.pos else pos, if pc.pos < pos then pos else pc.pos, cap);
    }
  }

  lemma Drain<T>(s: State<T>, i: nat, s': State<T>)
    requires Inv(s) && i < |s.pcs| && s.pcs[i].PopMove?
    requires s' == PopStep(s, i, false)
    ensures Inv(s')
  {
    var pos, cap := s.pcs[i].pos, |s.q.cells|;
    assert ThreadOk(s, s.pcs[i]);
    assert Draining(s'.pcs[i], pos);
    DrainerRound(s, i);
    forall t: nat | s.q.deq <= t < s.q.deq + cap ensures CellOk(s', t) {
      assert CellOk(s, t);
      if t < pos + cap { SlotInjective(t, pos + cap, cap); } else if pos + cap < t { SlotInjective(pos + cap, t, cap); }
      if t != pos + cap { KeepCell(s, s', i, t); }
    }
    forall j | 0 <= j < |s'.pcs| ensures ThreadOk(s', s'.pcs[j]) {
      if j != i { assert ThreadOk(s, s.pcs[j]); DrainerAlone(s, i, j); }
    }
    LocalExclusive(s.pcs, i, s'.pcs[i]);
  }

  lemma Release<T>(s: State<T>, i: nat, s': State<T>)
    requires Inv(s) && i < |s.pcs| && s.pcs[i].PopRelease?
    requires s' == PopStep(s, i, false)
    ensures Inv(s')
  {
    var pos, cap := s.pcs[i].pos, |s.q.cells|;
    assert ThreadOk(s, s.pcs[i]);
    DrainerRound(s, i);
    forall t: nat | s.q.deq <= t < s.q.deq + cap ensures CellOk(s', t) {
      assert CellOk(s, t);
      if t < pos + cap { SlotInjective(t, pos + cap, cap); } else if pos + cap < t { SlotInjective(pos + cap, t, cap); }
      if t != pos + cap { KeepCell(s, s', i, t); }
    }
    forall j | 0 <= j < |s'.pcs| ensures ThreadOk(s', s'.pcs[j]) {
      if j != i { ReleaseOthers(s, i, s', j); }
    }
    LocalExclusive(s.pcs, i, s'.pcs[i]);
  }

  lemma ReleaseOthers<T>(s: State<T>, i: nat, s': State<T>, j: nat)
    requires Inv(s) && i < |s.pcs| && s.pcs[i].PopRelease?
    requires s' == PopStep(s, i, false)
    requires j < |s.pcs| && j != i
    ensures Shape(s') && ThreadOk(s', s.pcs[j])
  {
    assert ThreadOk(s, s.pcs[i]) && ThreadOk(s, s.pcs[j]);
    DrainerAlone(s, i, j);
    SlotInjective(s.pcs[i].pos, s.pcs[i].pos + 1, |s.q.cells|);
  }

  /** What a push finds when the sequence it read is ahead of, equal to or behind its position. */
  lemma SequenceAt<T>(s: State<T>, pos: nat)
    requires Inv(s)
    ensures pos < s.q.deq ==> CellOf(s.q, pos).sequence > pos
    ensures s.q.deq <= pos < s.q.enq ==> pos <= CellOf(s.q, pos).sequence <= pos + 1
  {
    if s.q.deq <= pos < s.q.enq { assert CellOk(s, pos); }
    if pos < s.q.deq { OldSequence(s, pos, pos); }
  }

  /** A ticket below the dequeue cursor meets a cell already stamped for a later round. */
  lemma {:induction false} OldSequence<T>(s: State<T>, pos: nat, t: nat)
    requires Inv(s) && pos <= t < s.q.deq && Slot(t, |s.q.cells|) == Slot(pos, |s.q.cells|)
    ensures CellOf(s.q, pos).sequence > pos
    decreases s.q.deq - t
  {
    var next := t + |s.q.cells|;
    SlotNextRound(t, |s.q.cells|);
    if next < s.q.deq {
      OldSequence(s, pos, next);
    } else {
      assert CellOk(s, next);
    }
  }

  lemma PushStepInv<T>(s: State<T>, i: nat, spurious: bool)
    requires Inv(s) && i < |s.pcs| && IsPush(s.pcs[i])
    ensures Inv(PushStep(s, i, spurious))
  {
    var s' := PushStep(s, i, spurious);
    var pc := s.pcs[i];
    assert ThreadOk(s, pc);
    if pc.PushCas? && !spurious && pc.try.pos == s.q.enq { WinPush(s, i, s'); }
    else if pc.PushMove? { Fill(s, i, s'); }
    else if pc.PushPublish? { Publish(s, i, s'); }
    else {
      if pc.PushSeq? { SequenceAt(s, pc.try.pos); if pc.try.pos == s.q.enq { NotAhead(s); } }
      LocalStep(s, s', i);
    }
  }

  /** The cell of the next ticket to issue is never ahead of that ticket. */
  lemma NotAhead<T>(s: State<T>)
    requires Inv(s)
    ensures CellOf(s.q, s.q.enq).sequence <= s.q.enq
  {
    if s.q.enq == s.q.deq + |s.q.cells| {
      SlotNextRound(s.q.deq, |s.q.cells|);
      assert CellOk(s, s.q.deq);
    } else {
      assert CellOk(s, s.q.enq);
    }
  }

  lemma PopStepInv<T>(s: State<T>, i: nat, spurious: bool)
    requires Inv(s) && i < |s.pcs| && !IsPush(s.pcs[i]) && !s.pcs[i].Idle?
    ensures Inv(PopStep(s, i, spurious))
  {
    var s' := PopStep(s, i, spurious);
    var pc := s.pcs[i];
    assert ThreadOk(s, pc);
    if pc.PopCas? && !spurious && pc.try.pos == s.q.deq { WinPop(s, i, s'); }
    else if pc.PopMove? { Drain(s, i, s'); }
    else if pc.PopRelease? { Release(s, i, s'); }
    else { PopLocal(s, i, spurious); }
  }

  /** The steps of a pop that change nothing another thread can see but counters. */
  lemma PopLocal<T>(s: State<T>, i: nat, spurious: bool)
    requires Inv(s) && i < |s.pcs| && !IsPush(s.pcs[i]) && !s.pcs[i].Idle?
    requires !s.pcs[i].PopMove? && !s.pcs[i].PopRelease?
    requires s.pcs[i].PopCas? ==> spurious || s.pcs[i].try.pos != s.q.deq
    ensures Inv(PopStep(s, i, spurious))
  {
    assert ThreadOk(s, s.pcs[i]);
    if s.pcs[i].PopSeq? { assert CellOk(s, s.q.deq); }
    LocalStep(s, PopStep(s, i, spurious), i);
  }

  lemma StepInv<T>(s: State<T>, a: Action<T>)
    requires Inv(s)
    ensures Inv(Step(s, a))
  {
    if a.i < |s.pcs| {
      if s.pcs[a.i].Idle? {
        var s' := Begin(s, a.i, a.call);
        if a.call.Close? { assert s'.pcs == s.pcs[a.i := s.pcs[a.i]]; }
        LocalStep(s, s', a.i);
      } else if IsPush(s.pcs[a.i]) {
        PushStepInv(s, a.i, a.spurious);
      } else {
        PopStepInv(s, a.i, a.spurious);
      }
    }
  }

  lemma {:induction false} ExecInv<T>(s: State<T>, run: seq<Action<T>>)
    requires Inv(s)
    ensures Inv(Exec(s, run))
  {
    if run != [] {
      ExecInv(s, run[..|run| - 1]);
      StepInv(Exec(s, run[..|run| - 1]), run[|run| - 1]);
    }
  }
}
