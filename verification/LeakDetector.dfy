/**
 The leak detector in the program's own form: a map of live records and running totals updated in place, the queries
 that walk over the map, and the scope that takes a snapshot.  The ghost field `log` is the history since the last
 reset; every operation is proved to do to both what its event does in `LeakModel`.
 */
module LeakDetector {
  import opened Common
  import opened LeakModel
  import opened LeakTheorems

  datatype Snapshot = Snapshot(stats: Stats, nextSequence: nat)

  class MemoryLeakDetector {
    const defaultAlignment: nat
    var live: map<nat, Record>
    var stats: Stats
    var nextSequence: nat
    var enabled: bool
    ghost var log: seq<Entry>

    ghost function Value(): History
      reads this
    {
      History(Detector(defaultAlignment, live, stats, nextSequence, enabled), log)
    }

    ghost predicate Valid()
      reads this
    {
      Inv(Value())
    }

    constructor (defaultAlignment: nat)
      ensures Valid() && Value() == Initial(defaultAlignment)
    {
      this.defaultAlignment := defaultAlignment;
      live, stats, nextSequence, enabled, log := map[], NO_STATS, 1, false, [];
      new;
      EmptyInv(Value());
    }

    method SetEnabled(on: bool)
      requires Valid()
      modifies `enabled
      ensures Valid() && Value() == Step(old(Value()), Switch(on))
    {
      enabled := on;
    }

    /** Records one allocation; while disabled, and for a null address, nothing happens.  By `AllocateInv` it keeps `Valid`. */
    method RecordAllocation(address: nat, size: nat, file: Option<string>, line: int, isArray: bool, alignment: nat,
                            thread: nat, room: bool)
      modifies this
      ensures Value() == Step(old(Value()), Allocate(address, size, file, line, isArray, alignment, thread, room))
      ensures address != NULL && enabled && (room || address in old(live)) ==>
                var r := Record(address, size, if file.Some? then file.value else "unknown", line, isArray,
                                alignment > defaultAlignment, alignment, old(nextSequence), thread);
                && live == old(live)[address := r] && log == old(log) + [Allocated(r)]
                && stats.totalAllocations == old(stats.totalAllocations) + 1
                && stats.totalBytes == old(stats.totalBytes) + size
      ensures !(address != NULL && enabled && (room || address in old(live))) ==>
                live == old(live) && stats == old(stats) && log == old(log)
      ensures nextSequence == old(nextSequence) + One(address != NULL && enabled)
    {
      if address == NULL || !enabled {
        return;
      }
      var name := if file.Some? then file.value else "unknown";
      var record := Record(address, size, name, line, isArray, alignment > defaultAlignment, alignment, nextSequence, thread);
      nextSequence := nextSequence + 1;
      if address in live {
        SubtractLive(live[address].size);
      } else if room {
        stats := stats.(liveAllocations := stats.liveAllocations + 1);
      } else {
        return;
      }
      live := live[address := record];
      log := log + [Allocated(record)];
      stats := stats.(liveBytes := stats.liveBytes + size);
      stats := stats.(totalAllocations := stats.totalAllocations + 1, totalBytes := stats.totalBytes + size);
      stats := stats.(peakLiveBytes := Max(stats.peakLiveBytes, stats.liveBytes));
    }

    /** Records one free, enabled or not, and says which alignment to free with.  By `FreeInv` it keeps `Valid`. */
    method RecordDeallocation(address: nat, isArray: bool, fallback: nat) returns (alignment: nat)
      modifies this
      ensures Value() == OnFree(old(Value()), address, isArray)
      ensures alignment == AlignmentOf(old(live), address, fallback)
      ensures address != NULL && address in old(live) ==>
                var r := old(live)[address];
                && live == old(live) - {address}
                && log == old(log) + [Freed(address, r.isArray != isArray)]
                && stats.totalFrees == old(stats.totalFrees) + 1
                && stats.mismatchedDeletes == old(stats.mismatchedDeletes) + One(r.isArray != isArray)
                && stats.liveAllocations == |live|
                && stats.liveBytes == (if old(stats.liveBytes) >= r.size then old(stats.liveBytes) - r.size else 0)
                && alignment == (if r.alignment != 0 then r.alignment else fallback)
      ensures !(address != NULL && address in old(live)) ==> Value() == old(Value()) && alignment == fallback
    {
      if address == NULL || address !in live {
        return fallback;
      }
      var record := live[address];
      stats := stats.(mismatchedDeletes := stats.mismatchedDeletes + One(record.isArray != isArray));
      SubtractLive(record.size);
      live := live - {address};
      log := log + [Freed(address, record.isArray != isArray)];
      stats := stats.(liveAllocations := |live|, totalFrees := stats.totalFrees + 1);
      alignment := if record.alignment != 0 then record.alignment else fallback;
    }

    /** The subtraction both record functions make; by `SubtractionNeverSaturates` its second branch is never taken. */
    method SubtractLive(size: nat)
      modifies `stats
      ensures stats == old(stats).(liveBytes := Minus(old(stats.liveBytes), size))
    {
      if stats.liveBytes >= size {
        stats := stats.(liveBytes := stats.liveBytes - size);
      } else {
        stats := stats.(liveBytes := 0);
      }
    }

    method Reset()
      requires Valid()
      modifies this
      ensures Valid() && Value() == Step(old(Value()), Clear)
    {
      live, stats, nextSequence, log := map[], NO_STATS, 1, [];
      EmptyInv(Value());
    }

    method TakeSnapshot() returns (snapshot: Snapshot)
      requires Valid()
      ensures snapshot == Snapshot(stats, nextSequence)
      ensures forall i :: 0 <= i < |log| && log[i].Allocated? ==> log[i].record.sequence < snapshot.nextSequence
    {
      snapshot := Snapshot(stats, nextSequence);
    }

    /** Anything allocated and neither freed nor replaced since the last reset. */
    method HasLeaks() returns (b: bool)
      requires Valid()
      ensures b <==> exists i :: Survives(log, i)
    {
      b := stats.liveAllocations > 0;
      if b {
        var a :| a in live;
        ghost var i := HeldSurvives(log, a);
      }
      forall i | Survives(log, i) ensures live != map[] {
        SurvivorIsHeld(log, i);
      }
    }

    /** Anything numbered since the snapshot that was neither freed nor replaced: a walk that stops at the first one. */
    method HasLeaksSince(snapshot: Snapshot) returns (b: bool)
      requires Valid()
      ensures b <==> exists i :: Survives(log, i) && log[i].record.sequence >= snapshot.nextSequence
    {
      var keys := live.Keys;
      b := false;
      while keys != {} && !b
        invariant keys <= live.Keys
        invariant b <==> exists a :: a in live && a !in keys && live[a].sequence >= snapshot.nextSequence
        decreases |keys|
      {
        var a :| a in keys;
        keys := keys - {a};
        b := live[a].sequence >= snapshot.nextSequence;
      }
      if b {
        ghost var a :| a in live && live[a].sequence >= snapshot.nextSequence;
        ghost var i := HeldSurvives(log, a);
      }
      forall i | Survives(log, i) && log[i].record.sequence >= snapshot.nextSequence ensures b {
        SurvivorIsHeld(log, i);
      }
    }

    /** The leaks since a snapshot: a walk over the map, then a sort by sequence number. */
    method LeaksSince(snapshot: Snapshot) returns (records: seq<Record>)
      requires Valid()
      ensures ListsLeaks(live, snapshot.nextSequence, records)
    {
      var keys := live.Keys;
      records := [];
      while keys != {}
        invariant keys <= live.Keys
        invariant Distinct(records)
        invariant forall r :: r in records <==> Leaky(live, snapshot.nextSequence, r) && r.address !in keys
        decreases |keys|
      {
        var a :| a in keys;
        keys := keys - {a};
        LiveAddress(Value(), a);
        if live[a].sequence >= snapshot.nextSequence {
          forall r | r in records ensures r.sequence != live[a].sequence {
            LiveSequencesDiffer(Value(), r.address, a);
          }
          records := records + [live[a]];
        }
      }
      records := SortBySequence(records);
    }

    method LiveAllocations() returns (records: seq<Record>)
      requires Valid()
      ensures records == Survivors(log, 0, |log|)
    {
      records := LeaksSince(Snapshot(NO_STATS, 0));
      ListIsSurvivors(Value(), 0, 0, records);
    }
  }

  /** A scope: it remembers the switch and where it began, and puts the switch back at its end. */
  class ScopedMemoryLeakCheck {
    const detector: MemoryLeakDetector
    const previousEnabled: bool
    const baseline: Snapshot

    constructor (detector: MemoryLeakDetector, enableDetector: bool)
      requires detector.Valid()
      modifies detector
      ensures detector.Valid() && this.detector == detector && previousEnabled == old(detector.enabled)
      ensures detector.Value() == if enableDetector then Step(old(detector.Value()), Switch(true)) else old(detector.Value())
      ensures baseline == Snapshot(detector.stats, detector.nextSequence)
    {
      this.detector, this.previousEnabled := detector, detector.enabled;
      if enableDetector {
        detector.SetEnabled(true);
      }
      var snapshot := detector.TakeSnapshot();
      this.baseline := snapshot;
    }

    method Leave()
      requires detector.Valid()
      modifies detector
      ensures detector.Valid() && detector.Value() == Step(old(detector.Value()), Switch(previousEnabled))
    {
      detector.SetEnabled(previousEnabled);
    }

    /**
     Whether anything numbered since the scope began is still live.  If nothing was reset in the scope, that is whether
     anything recorded in it is; `before` is the history at its beginning and `es` what happened in it.
     */
    method HasLeaks(ghost before: History, ghost es: seq<Event>) returns (b: bool)
      requires detector.Valid() && Inv(before) && before.d.nextSequence == baseline.nextSequence
      requires detector.Value() == Exec(before, es)
      ensures b <==> exists i :: Survives(detector.log, i) && detector.log[i].record.sequence >= baseline.nextSequence
      ensures Clear !in es ==> (b <==> exists i :: i >= |before.log| && Survives(detector.log, i))
    {
      b := detector.HasLeaksSince(baseline);
      if Clear !in es {
        HistoryGrows(before, es);
        forall i | Survives(detector.log, i)
          ensures i >= |before.log| <==> detector.log[i].record.sequence >= baseline.nextSequence
        {
          if i < |before.log| { assert detector.log[i] == before.log[i]; }
        }
      }
    }
  }
}
