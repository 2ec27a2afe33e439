/**
 The leak detector's bookkeeping as a value, beside the history of what it recorded.  The detector keeps running
 totals and a map; the history keeps every recorded allocation and free since the last reset, and says from them alone
 what is live, what leaked and how much was ever held.
 */
module LeakModel {
  import opened Common

  datatype Record = Record(address: nat, size: nat, file: string, line: int, isArray: bool, isAligned: bool,
                           alignment: nat, sequence: nat, thread: nat)

  datatype Stats = Stats(liveAllocations: nat, liveBytes: nat, totalAllocations: nat, totalBytes: nat,
                         totalFrees: nat, peakLiveBytes: nat, mismatchedDeletes: nat)

  const NO_STATS := Stats(0, 0, 0, 0, 0, 0, 0)

  const NULL: nat := 0

  /** What one mutex protects, and the switch; `defaultAlignment` is the platform's default for `new`. */
  datatype Detector = Detector(defaultAlignment: nat, live: map<nat, Record>, stats: Stats, nextSequence: nat,
                               enabled: bool)

  /** `room` says whether the map finds memory for one more entry. */
  datatype Event =
    | Allocate(address: nat, size: nat, file: Option<string>, line: int, isArray: bool, alignment: nat, thread: nat,
               room: bool)
    | Free(address: nat, isArray: bool)
    | Clear
    | Switch(on: bool)

  /** One line of the history: an allocation, or the free of one. */
  datatype Entry = Allocated(record: Record) | Freed(address: nat, mismatch: bool) {
    function Address(): nat {
      if Allocated? then record.address else address
    }
  }

  datatype History = History(d: Detector, log: seq<Entry>)

  function Initial(defaultAlignment: nat): History {
    History(Detector(defaultAlignment, map[], NO_STATS, 1, false), [])
  }

  function Minus(a: nat, b: nat): nat {
    if a >= b then a - b else 0
  }

  function Max(a: nat, b: nat): nat {
    if a >= b then a else b
  }

  function RecordOf(d: Detector, e: Event): Record
    requires e.Allocate?
  {
    Record(e.address, e.size, if e.file.Some? then e.file.value else "unknown", e.line, e.isArray,
           e.alignment > d.defaultAlignment, e.alignment, d.nextSequence, e.thread)
  }

  function OnAllocate(h: History, e: Event): History
    requires e.Allocate?
  {
    var d := h.d;
    if e.address == NULL || !d.enabled then h
    else if e.address !in d.live && !e.room then h.(d := d.(nextSequence := d.nextSequence + 1))
    else
      var r, known := RecordOf(d, e), e.address in d.live;
      var bytes := (if known then Minus(d.stats.liveBytes, d.live[e.address].size) else d.stats.liveBytes) + e.size;
      var stats := d.stats.(
        liveAllocations := d.stats.liveAllocations + One(!known), liveBytes := bytes,
        totalAllocations := d.stats.totalAllocations + 1, totalBytes := d.stats.totalBytes + e.size,
        peakLiveBytes := Max(d.stats.peakLiveBytes, bytes));
      History(d.(live := d.live[e.address := r], stats := stats, nextSequence := d.nextSequence + 1),
              h.log + [Allocated(r)])
  }

  function OnFree(h: History, address: nat, isArray: bool): History {
    var d := h.d;
    if address == NULL || address !in d.live then h
    else
      var r := d.live[address];
      var stats := d.stats.(
        liveAllocations := |d.live - {address}|, liveBytes := Minus(d.stats.liveBytes, r.size),
        totalFrees := d.stats.totalFrees + 1,
        mismatchedDeletes := d.stats.mismatchedDeletes + One(r.isArray != isArray));
      History(d.(live := d.live - {address}, stats := stats), h.log + [Freed(address, r.isArray != isArray)])
  }

  /** The alignment to free a block with: the recorded one, unless there is none or it is the default. */
  function AlignmentOf(live: map<nat, Record>, address: nat, fallback: nat): nat {
    if address != NULL && address in live && live[address].alignment != 0 then live[address].alignment else fallback
  }

  function Step(h: History, e: Event): History {
    match e
    case Allocate(_, _, _, _, _, _, _, _) => OnAllocate(h, e)
    case Free(address, isArray) => OnFree(h, address, isArray)
    case Clear => History(h.d.(live := map[], stats := NO_STATS, nextSequence := 1), [])
    case Switch(on) => h.(d := h.d.(enabled := on))
  }

  function Exec(h: History, es: seq<Event>): History {
    if es == [] then h else Step(Exec(h, es[..|es| - 1]), es[|es| - 1])
  }

  // ---------- What the history says ----------

  /** Allocation `i` was neither freed nor replaced by a later one at its address. */
  ghost predicate Survives(log: seq<Entry>, i: int) {
    0 <= i < |log| && log[i].Allocated? && forall j :: i < j < |log| ==> log[j].Address() != log[i].Address()
  }

  /** The surviving allocations of `log[lo..hi]`, in the order they were made. */
  ghost function Survivors(log: seq<Entry>, lo: nat, hi: nat): seq<Record>
    requires hi <= |log|
  {
    if hi <= lo then []
    else Survivors(log, lo, hi - 1) + if Survives(log, hi - 1) then [log[hi - 1].record] else []
  }

  /** The survivors by address. */
  ghost function Holding(log: seq<Entry>): map<nat, Record> {
    if log == [] then map[]
    else
      var before, last := Holding(log[..|log| - 1]), log[|log| - 1];
      if last.Allocated? then before[last.record.address := last.record] else before - {last.address}
  }

  /** Total size of the records of a map. */
  ghost function Bytes(m: map<nat, Record>): nat {
    if m == map[] then 0
    else
      var a :| a in m;
      m[a].size + Bytes(m - {a})
  }

  /** The bytes held after the first `i` entries. */
  ghost function HeldAfter(log: seq<Entry>, i: nat): nat
    requires i <= |log|
  {
    Bytes(Holding(log[..i]))
  }

  /** `peak` is the most ever held. */
  ghost predicate IsPeak(log: seq<Entry>, peak: nat) {
    (forall i :: 0 <= i <= |log| ==> HeldAfter(log, i) <= peak) &&
    exists i :: 0 <= i <= |log| && HeldAfter(log, i) == peak
  }

  ghost function AllocatedBytes(log: seq<Entry>): nat {
    if log == [] then 0
    else AllocatedBytes(log[..|log| - 1]) + if log[|log| - 1].Allocated? then log[|log| - 1].record.size else 0
  }

  /** Allocations that took the place of a live one at the same address. */
  ghost function Replacements(log: seq<Entry>): nat {
    if log == [] then 0
    else
      var before, last := log[..|log| - 1], log[|log| - 1];
      Replacements(before) + One(last.Allocated? && last.Address() in Holding(before))
  }

  /** Allocations are numbered upwards, from 1 to below `next`. */
  ghost predicate Numbered(log: seq<Entry>, next: nat) {
    (forall i :: 0 <= i < |log| && log[i].Allocated? ==> 1 <= log[i].record.sequence < next) &&
    forall i, j :: 0 <= i < j < |log| && log[i].Allocated? && log[j].Allocated? ==>
      log[i].record.sequence < log[j].record.sequence
  }

  function IsAllocation(): Entry -> bool { (e: Entry) => e.Allocated? }

  function IsFree(): Entry -> bool { (e: Entry) => e.Freed? }

  function IsMismatch(): Entry -> bool { (e: Entry) => e.Freed? && e.mismatch }

  /** The running totals are those of the history. */
  ghost predicate Totals(s: Stats, log: seq<Entry>) {
    && s.liveBytes == Bytes(Holding(log)) && s.liveAllocations == |Holding(log)|
    && s.totalAllocations == Count(log, IsAllocation()) && s.totalBytes == AllocatedBytes(log)
    && s.totalFrees == Count(log, IsFree()) && s.mismatchedDeletes == Count(log, IsMismatch())
  }

  ghost predicate Inv(h: History) {
    && h.d.live == Holding(h.log) && Totals(h.d.stats, h.log) && IsPeak(h.log, h.d.stats.peakLiveBytes)
    && h.d.nextSequence >= 1 && Numbered(h.log, h.d.nextSequence)
  }

  // ---------- Sums over a map ----------

  lemma {:induction false} BytesWithout(m: map<nat, Record>, a: nat)
    requires a in m
    ensures Bytes(m) == m[a].size + Bytes(m - {a})
    decreases |m|
  {
    var b :| b in m && Bytes(m) == m[b].size + Bytes(m - {b});
    if b != a {
      BytesWithout(m - {b}, a);
      BytesWithout(m - {a}, b);
      assert m - {b} - {a} == m - {a} - {b};
    }
  }

  /** What the subtraction guards against never happens: a live record is part of the sum. */
  lemma SubtractionNeverSaturates(h: History, a: nat)
    requires Inv(h) && a in h.d.live
    ensures h.d.stats.liveBytes >= h.d.live[a].size
    ensures Minus(h.d.stats.liveBytes, h.d.live[a].size) == Bytes(h.d.live - {a})
  {
    BytesWithout(h.d.live, a);
  }

  lemma BytesWith(m: map<nat, Record>, a: nat, r: Record)
    ensures Bytes(m[a := r]) == Bytes(m - {a}) + r.size
  {
    BytesWithout(m[a := r], a);
    assert m[a := r] - {a} == m - {a};
  }

  // ---------- One more entry ----------

  lemma HoldingMore(log: seq<Entry>, x: Entry)
    ensures Holding(log + [x]) ==
            if x.Allocated? then Holding(log)[x.record.address := x.record] else Holding(log) - {x.address}
    ensures AllocatedBytes(log + [x]) == AllocatedBytes(log) + if x.Allocated? then x.record.size else 0
    ensures Replacements(log + [x]) == Replacements(log) + One(x.Allocated? && x.Address() in Holding(log))
  {
    assert (log + [x])[..|log + [x]| - 1] == log;
  }

  lemma CountsMore(log: seq<Entry>, x: Entry)
    ensures Count(log + [x], IsAllocation()) == Count(log, IsAllocation()) + One(x.Allocated?)
    ensures Count(log + [x], IsFree()) == Count(log, IsFree()) + One(x.Freed?)
    ensures Count(log + [x], IsMismatch()) == Count(log, IsMismatch()) + One(x.Freed? && x.mismatch)
  {
    assert (log + [x])[..|log + [x]| - 1] == log;
  }

  lemma PeakMore(log: seq<Entry>, x: Entry, peak: nat)
    requires IsPeak(log, peak)
    ensures IsPeak(log + [x], Max(peak, Bytes(Holding(log + [x]))))
  {
    var more := log + [x];
    var now := Bytes(Holding(more));
    var top :| 0 <= top <= |log| && HeldAfter(log, top) == peak;
    forall i | 0 <= i <= |more|
      ensures HeldAfter(more, i) == if i <= |log| then HeldAfter(log, i) else now
    {
      assert more[..i] == if i <= |log| then log[..i] else more;
    }
    assert HeldAfter(more, if now > peak then |more| else top) == Max(peak, now);
  }

  /** With nothing recorded, the books are in order. */
  lemma EmptyInv(h: History)
    requires h.log == [] && h.d.live == map[] && h.d.stats == NO_STATS && h.d.nextSequence == 1
    ensures Inv(h)
  {
    assert HeldAfter(h.log, 0) == 0;
  }

  // ---------- The invariant over every run ----------

  /** An allocation at `a` changes the bytes held by what comes in and what it replaces. */
  lemma BytesReplaced(h: History, a: nat, r: Record)
    requires Inv(h)
    ensures Bytes(h.d.live[a := r]) ==
            (if a in h.d.live then Minus(h.d.stats.liveBytes, h.d.live[a].size) else h.d.stats.liveBytes) + r.size
  {
    BytesWith(h.d.live, a, r);
    if a in h.d.live {
      SubtractionNeverSaturates(h, a);
    } else {
      assert h.d.live - {a} == h.d.live;
    }
  }

  predicate Accepted(d: Detector, e: Event) {
    e.Allocate? && e.address != NULL && d.enabled && (e.address in d.live || e.room)
  }

  lemma AllocateTotals(h: History, e: Event)
    requires Inv(h) && Accepted(h.d, e)
    ensures var h' := OnAllocate(h, e); h'.d.live == Holding(h'.log) && Totals(h'.d.stats, h'.log)
  {
    var r := RecordOf(h.d, e);
    HoldingMore(h.log, Allocated(r));
    CountsMore(h.log, Allocated(r));
    BytesReplaced(h, e.address, r);
    SizeWith(h.d.live, e.address, r);
  }

  lemma AllocatePeak(h: History, e: Event)
    requires Inv(h) && Accepted(h.d, e)
    ensures var h' := OnAllocate(h, e); IsPeak(h'.log, h'.d.stats.peakLiveBytes)
  {
    var r := RecordOf(h.d, e);
    HoldingMore(h.log, Allocated(r));
    PeakMore(h.log, Allocated(r), h.d.stats.peakLiveBytes);
    BytesReplaced(h, e.address, r);
  }

  lemma AllocateNumbered(h: History, e: Event)
    requires Inv(h) && Accepted(h.d, e)
    ensures Numbered(OnAllocate(h, e).log, OnAllocate(h, e).d.nextSequence)
  {
  }

  lemma AllocateInv(h: History, e: Event)
    requires Inv(h) && e.Allocate?
    ensures Inv(OnAllocate(h, e))
  {
    if Accepted(h.d, e) {
      AllocateTotals(h, e);
      AllocatePeak(h, e);
      AllocateNumbered(h, e);
    }
  }

  /** A free never raises the peak. */
  lemma PeakKept(h: History, x: Entry)
    requires Inv(h) && x.Freed? && x.address in h.d.live
    ensures IsPeak(h.log + [x], h.d.stats.peakLiveBytes)
  {
    PeakMore(h.log, x, h.d.stats.peakLiveBytes);
    HoldingMore(h.log, x);
    SubtractionNeverSaturates(h, x.address);
    assert h.log[..|h.log|] == h.log;
    assert HeldAfter(h.log, |h.log|) == h.d.stats.liveBytes;
  }

  lemma FreeTotals(h: History, address: nat, isArray: bool)
    requires Inv(h) && address != NULL && address in h.d.live
    ensures var h' := OnFree(h, address, isArray); h'.d.live == Holding(h'.log) && Totals(h'.d.stats, h'.log)
  {
    var x := Freed(address, h.d.live[address].isArray != isArray);
    HoldingMore(h.log, x);
    CountsMore(h.log, x);
    SubtractionNeverSaturates(h, address);
  }

  lemma FreeInv(h: History, address: nat, isArray: bool)
    requires Inv(h)
    ensures Inv(OnFree(h, address, isArray))
  {
    if address != NULL && address in h.d.live {
      FreeTotals(h, address, isArray);
      PeakKept(h, Freed(address, h.d.live[address].isArray != isArray));
    }
  }

  lemma StepInv(h: History, e: Event)
    requires Inv(h)
    ensures Inv(Step(h, e))
  {
    match e
    case Allocate(_, _, _, _, _, _, _, _) => AllocateInv(h, e);
    case Free(address, isArray) => FreeInv(h, address, isArray);
    case Clear => EmptyInv(Step(h, e));
    case Switch(_) =>
  }

  lemma {:induction false} ExecInv(h: History, es: seq<Event>)
    requires Inv(h)
    ensures Inv(Exec(h, es))
  {
    if es != [] {
      ExecInv(h, es[..|es| - 1]);
      StepInv(Exec(h, es[..|es| - 1]), es[|es| - 1]);
    }
  }

  lemma InitialInv(defaultAlignment: nat)
    ensures Inv(Initial(defaultAlignment))
  {
    EmptyInv(Initial(defaultAlignment));
  }

  lemma RunInv(defaultAlignment: nat, es: seq<Event>)
    ensures Inv(Exec(Initial(defaultAlignment), es))
  {
    InitialInv(defaultAlignment);
    ExecInv(Initial(defaultAlignment), es);
  }

  /** Between resets the totals are what the history says, at every moment of every run. */
  lemma TotalsAlwaysAgree(defaultAlignment: nat, es: seq<Event>)
    ensures var h := Exec(Initial(defaultAlignment), es);
            && h.d.stats.liveBytes == Bytes(h.d.live) && h.d.stats.liveAllocations == |h.d.live|
            && IsPeak(h.log, h.d.stats.peakLiveBytes) && Totals(h.d.stats, h.log)
  {
    RunInv(defaultAlignment, es);
  }

  /** Every recorded allocation is live, was freed, or was replaced. */
  lemma {:induction false} AllocationsAreConserved(log: seq<Entry>)
    requires OnlyLiveIsFreed(log)
    ensures Count(log, IsAllocation()) == |Holding(log)| + Count(log, IsFree()) + Replacements(log)
  {
    if log != [] {
      var before, last := log[..|log| - 1], log[|log| - 1];
      AllocationsAreConserved(before);
      if last.Allocated? {
        SizeWith(Holding(before), last.record.address, last.record);
      } else {
        SizeWithout(Holding(before), last.address);
      }
    }
  }

  ghost predicate OnlyLiveIsFreed(log: seq<Entry>) {
    log == [] ||
    var before, last := log[..|log| - 1], log[|log| - 1];
    OnlyLiveIsFreed(before) && (last.Freed? ==> last.address in Holding(before))
  }

  lemma {:induction false} FreesAreOfLiveAllocations(h: History, es: seq<Event>)
    requires Inv(h) && OnlyLiveIsFreed(h.log)
    ensures OnlyLiveIsFreed(Exec(h, es).log)
  {
    if es != [] {
      FreesAreOfLiveAllocations(h, es[..|es| - 1]);
      ExecInv(h, es[..|es| - 1]);
      hide Inv, OnlyLiveIsFreed, Step;
      FreeIsOfLive(Exec(h, es[..|es| - 1]), es[|es| - 1]);
    }
  }

  lemma FreeIsOfLive(h: History, e: Event)
    requires Inv(h) && OnlyLiveIsFreed(h.log)
    ensures OnlyLiveIsFreed(Step(h, e).log)
  {
    hide Totals, IsPeak, Numbered, Holding;
    var log := Step(h, e).log;
    if |log| == |h.log| + 1 {
      assert log[..|log| - 1] == h.log;
    }
  }

  lemma StatsAreConserved(defaultAlignment: nat, es: seq<Event>)
    ensures var h := Exec(Initial(defaultAlignment), es);
            h.d.stats.totalAllocations == h.d.stats.liveAllocations + h.d.stats.totalFrees + Replacements(h.log)
  {
    TotalsAlwaysAgree(defaultAlignment, es);
    InitialInv(defaultAlignment);
    FreesAreOfLiveAllocations(Initial(defaultAlignment), es);
    AllocationsAreConserved(Exec(Initial(defaultAlignment), es).log);
  }
}
