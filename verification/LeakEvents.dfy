/**
 What is live and what is counted, said of the calls alone: neither the map nor the history is mentioned, and the
 detector's state after any calls is proved to be what is said here.
 */
module LeakEvents {
  import opened Common
  import opened LeakModel
  import opened LeakTheorems

  // ---------- What the calls say ----------

  /** The last switch before call `n` turned the detector on. */
  ghost predicate SwitchedOn(es: seq<Event>, n: nat)
    requires n <= |es|
  {
    exists s :: 0 <= s < n && es[s] == Switch(true) && forall j :: s < j < n ==> !es[j].Switch?
  }

  /** Call `i` asks for a number: an allocation that is not null, while switched on. */
  ghost predicate Attempts(es: seq<Event>, i: nat)
    requires i < |es|
  {
    es[i].Allocate? && es[i].address != NULL && SwitchedOn(es, i)
  }

  /** It is recorded, too, if there is room for it or it is at the address of a live one. */
  ghost predicate Records(es: seq<Event>, i: nat)
    requires i < |es|
    decreases i, 1
  {
    Attempts(es, i) && (es[i].room || exists j: nat :: Stands(es, j, i, es[i].address))
  }

  /** Call `j` ends what is live at `a`: by freeing it, by recording another one there, or by a reset. */
  ghost predicate Ends(es: seq<Event>, j: nat, a: nat)
    requires j < |es|
    decreases j, 2
  {
    match es[j]
    case Allocate(address, _, _, _, _, _, _, _) => address == a && Records(es, j)
    case Free(address, _) => address == a
    case Clear => true
    case Switch(_) => false
  }

  /** The allocation of call `i` is live, at `a`, after the first `n` calls. */
  ghost predicate Stands(es: seq<Event>, i: nat, n: nat, a: nat)
    requires n <= |es|
    ensures Stands(es, i, n, a) ==> i < n
    decreases n, 0
  {
    i < n && es[i].Allocate? && es[i].address == a && Records(es, i) && forall j :: i < j < n ==> !Ends(es, j, a)
  }

  datatype Kind = Attempting | Recording | Freeing | Mismatching

  /** Call `j` is of kind `k`.  A free counts if it frees something, and is a mismatch if the other form made that. */
  ghost predicate Is(es: seq<Event>, j: nat, k: Kind)
    requires j < |es|
  {
    match k
    case Attempting => Attempts(es, j)
    case Recording => Records(es, j)
    case Freeing => es[j].Free? && exists i: nat :: Stands(es, i, j, es[j].address)
    case Mismatching => es[j].Free? && exists i: nat :: Stands(es, i, j, es[j].address) && es[i].isArray != es[j].isArray
  }

  /** How many of the first `n` calls are of kind `k`, since the last reset. */
  ghost function HowMany(es: seq<Event>, n: nat, k: Kind): nat
    requires n <= |es|
  {
    if n == 0 || es[n - 1].Clear? then 0 else HowMany(es, n - 1, k) + One(Is(es, n - 1, k))
  }

  /** `r` records what call `i` said, and is numbered by the attempts since the last reset. */
  ghost predicate IsRecordOf(r: Record, es: seq<Event>, i: nat, defaultAlignment: nat)
    requires i < |es|
  {
    && es[i].Allocate?
    && r.address == es[i].address && r.size == es[i].size && r.line == es[i].line && r.isArray == es[i].isArray
    && r.alignment == es[i].alignment && (r.isAligned <==> es[i].alignment > defaultAlignment)
    && r.thread == es[i].thread
    && r.file == (match es[i].file case Some(name) => name case None => "unknown")
    && r.sequence == 1 + HowMany(es, i, Attempting)
  }

  // ---------- One more call ----------

  /** What is live at an address is one allocation only. */
  lemma OneStands(es: seq<Event>, i: nat, j: nat, n: nat, a: nat)
    requires n <= |es| && Stands(es, i, n, a) && Stands(es, j, n, a)
    ensures i == j
  {
    StandingEnds(es, i, n, a);
    StandingEnds(es, j, n, a);
  }

  /** What is live at an address ended whatever was live there before. */
  lemma StandingEnds(es: seq<Event>, i: nat, n: nat, a: nat)
    requires n <= |es| && Stands(es, i, n, a)
    ensures Ends(es, i, a)
  {
  }

  lemma StandsNext(es: seq<Event>, i: nat, n: nat, a: nat)
    requires n < |es|
    ensures Stands(es, i, n + 1, a) <==>
            if i == n then es[n].Allocate? && es[n].address == a && Records(es, n)
            else Stands(es, i, n, a) && !Ends(es, n, a)
  {
  }

  /** The state after the first `n` calls is what the calls say. */
  ghost predicate Tells(h: History, es: seq<Event>, n: nat)
    requires n <= |es|
  {
    && (h.d.enabled <==> SwitchedOn(es, n))
    && (forall i: nat, a: nat :: Stands(es, i, n, a) ==>
          a in h.d.live && IsRecordOf(h.d.live[a], es, i, h.d.defaultAlignment))
    && (forall a :: a in h.d.live ==> exists i: nat :: Stands(es, i, n, a))
  }

  ghost predicate Counts(h: History, es: seq<Event>, n: nat)
    requires n <= |es|
  {
    && h.d.nextSequence == 1 + HowMany(es, n, Attempting)
    && h.d.stats.totalAllocations == HowMany(es, n, Recording)
    && h.d.stats.totalFrees == HowMany(es, n, Freeing)
    && h.d.stats.mismatchedDeletes == HowMany(es, n, Mismatching)
  }

  lemma SwitchNext(h: History, es: seq<Event>, n: nat)
    requires n < |es| && (h.d.enabled <==> SwitchedOn(es, n))
    ensures Step(h, es[n]).d.enabled <==> SwitchedOn(es, n + 1)
  {
    if SwitchedOn(es, n) {
      var s :| 0 <= s < n && es[s] == Switch(true) && forall j :: s < j < n ==> !es[j].Switch?;
    }
    if es[n] == Switch(true) { assert SwitchedOn(es, n + 1); }
  }

  lemma RecordsWhen(h: History, es: seq<Event>, n: nat)
    requires n < |es| && Tells(h, es, n)
    ensures Attempts(es, n) <==> es[n].Allocate? && es[n].address != NULL && h.d.enabled
    ensures Records(es, n) <==> Attempts(es, n) && (es[n].address in h.d.live || es[n].room)
  {
    hide SwitchedOn, Stands, IsRecordOf;
  }

  lemma NoNull(es: seq<Event>, n: nat)
    requires n <= |es|
    ensures forall i: nat :: !Stands(es, i, n, NULL)
  {
  }

  /** What a step leaves at an address, in the words of the calls. */
  lemma LiveNext(h: History, es: seq<Event>, n: nat, a: nat)
    requires n < |es| && Tells(h, es, n)
    ensures var live := Step(h, es[n]).d.live;
            if es[n].Allocate? && es[n].address == a && Records(es, n) then
              a in live && live[a] == RecordOf(h.d, es[n])
            else (a in live <==> a in h.d.live && !Ends(es, n, a)) && (a in live ==> live[a] == h.d.live[a])
  {
    hide Stands, IsRecordOf, SwitchedOn, Attempts, Records;
    RecordsWhen(h, es, n);
    NoNull(es, n);
  }

  lemma TellsNext(h: History, es: seq<Event>, n: nat)
    requires n < |es| && Tells(h, es, n) && Counts(h, es, n)
    ensures Tells(Step(h, es[n]), es, n + 1)
  {
    hide Stands, Records, IsRecordOf, SwitchedOn, Step;
    var h' := Step(h, es[n]);
    var m := n + 1;
    StepKeeps(h, es[n]);
    SwitchNext(h, es, n);
    forall i: nat, a: nat | Stands(es, i, m, a)
      ensures a in h'.d.live && IsRecordOf(h'.d.live[a], es, i, h'.d.defaultAlignment)
    {
      StandsNext(es, i, n, a);
      LiveNext(h, es, n, a);
      if i == n { RecordedNow(h, es, n); }
    }
    forall a | a in h'.d.live ensures exists i: nat :: Stands(es, i, m, a) {
      LiveNext(h, es, n, a);
      if es[n].Allocate? && es[n].address == a && Records(es, n) {
        StandsNext(es, n, n, a);
      } else {
        var i: nat :| Stands(es, i, n, a);
        StandsNext(es, i, n, a);
      }
    }
  }

  lemma StepKeeps(h: History, e: Event)
    ensures Step(h, e).d.defaultAlignment == h.d.defaultAlignment
  {
  }

  lemma RecordedNow(h: History, es: seq<Event>, n: nat)
    requires n < |es| && es[n].Allocate? && h.d.nextSequence == 1 + HowMany(es, n, Attempting)
    ensures IsRecordOf(RecordOf(h.d, es[n]), es, n, h.d.defaultAlignment)
  {
  }

  /** A call that frees something frees one allocation, and the record tells which form made it. */
  lemma FreesWhen(h: History, es: seq<Event>, n: nat)
    requires n < |es| && Tells(h, es, n) && es[n].Free?
    ensures var a := es[n].address;
            && (Is(es, n, Freeing) <==> a != NULL && a in h.d.live)
            && (Is(es, n, Mismatching) <==> a != NULL && a in h.d.live && h.d.live[a].isArray != es[n].isArray)
  {
    hide Stands, SwitchedOn;
    var a := es[n].address;
    NoNull(es, n);
    if a in h.d.live {
      var i: nat :| Stands(es, i, n, a);
      forall j: nat | Stands(es, j, n, a) ensures j == i { OneStands(es, i, j, n, a); }
    }
  }

  lemma CountsNext(h: History, es: seq<Event>, n: nat)
    requires n < |es| && Tells(h, es, n) && Counts(h, es, n)
    ensures Counts(Step(h, es[n]), es, n + 1)
  {
    hide Tells, Stands, SwitchedOn;
    if es[n].Free? {
      FreesWhen(h, es, n);
    } else if es[n].Allocate? {
      RecordsWhen(h, es, n);
    }
  }

  lemma {:induction false} RunTells(defaultAlignment: nat, es: seq<Event>, n: nat)
    requires n <= |es|
    ensures Tells(Exec(Initial(defaultAlignment), es[..n]), es, n)
    ensures Counts(Exec(Initial(defaultAlignment), es[..n]), es, n)
    ensures Exec(Initial(defaultAlignment), es[..n]).d.defaultAlignment == defaultAlignment
  {
    if n > 0 {
      RunTells(defaultAlignment, es, n - 1);
      assert es[..n][..n - 1] == es[..n - 1];
      var h := Exec(Initial(defaultAlignment), es[..n - 1]);
      hide Tells, Counts;
      StepKeeps(h, es[n - 1]);
      TellsNext(h, es, n - 1);
      CountsNext(h, es, n - 1);
    } else {
      Beginning(defaultAlignment, es);
    }
  }

  lemma Beginning(defaultAlignment: nat, es: seq<Event>)
    ensures Tells(Initial(defaultAlignment), es, 0) && Counts(Initial(defaultAlignment), es, 0)
  {
  }

  // ---------- Main results over every run ----------

  /** The allocation of call `i` is what all the calls left at `a`, and `r` is its record. */
  ghost predicate Leaves(es: seq<Event>, i: nat, a: nat, r: Record, defaultAlignment: nat) {
    Stands(es, i, |es|, a) && IsRecordOf(r, es, i, defaultAlignment)
  }

  /**
   After any calls, an address is live exactly if some recorded allocation at it was not freed, recorded over or reset
   away since, and the map then holds what that call said.
   */
  lemma LiveIsWhatTheCallsLeft(defaultAlignment: nat, es: seq<Event>, a: nat)
    ensures var d := Exec(Initial(defaultAlignment), es).d;
            && (a in d.live <==> exists i: nat :: Stands(es, i, |es|, a))
            && (a in d.live ==> exists i: nat :: Leaves(es, i, a, d.live[a], defaultAlignment))
  {
    assert es[..|es|] == es;
    RunTells(defaultAlignment, es, |es|);
    hide Exec, Tells, Leaves, Stands;
    LiveWhen(Exec(Initial(defaultAlignment), es), es, a);
  }

  lemma LiveWhen(h: History, es: seq<Event>, a: nat)
    requires Tells(h, es, |es|)
    ensures a in h.d.live <==> exists i: nat :: Stands(es, i, |es|, a)
    ensures a in h.d.live ==> exists i: nat :: Leaves(es, i, a, h.d.live[a], h.d.defaultAlignment)
  {
    hide IsRecordOf;
    if a in h.d.live {
      var i: nat :| Stands(es, i, |es|, a);
      assert Stands(es, i, |es|, a);
      assert Leaves(es, i, a, h.d.live[a], h.d.defaultAlignment);
    }
  }

  /** After any calls the totals are the calls' own: attempts number, and recordings, frees and mismatches are counted. */
  lemma TotalsAreTheCalls(defaultAlignment: nat, es: seq<Event>)
    ensures var d := Exec(Initial(defaultAlignment), es).d;
            && d.nextSequence == 1 + HowMany(es, |es|, Attempting)
            && d.stats.totalAllocations == HowMany(es, |es|, Recording)
            && d.stats.totalFrees == HowMany(es, |es|, Freeing)
            && d.stats.mismatchedDeletes == HowMany(es, |es|, Mismatching)
  {
    assert es[..|es|] == es;
    RunTells(defaultAlignment, es, |es|);
  }

  /** Some surviving allocation of the history is recorded as `r`. */
  ghost predicate SurvivesAs(h: History, r: Record) {
    exists i :: Survives(h.log, i) && h.log[i].record == r
  }

  /** After a free nothing survives at the freed address, and everything else that survived does. */
  lemma FreeTakesEffect(defaultAlignment: nat, es: seq<Event>, a: nat, isArray: bool, r: Record)
    ensures var h, h' := Exec(Initial(defaultAlignment), es), Exec(Initial(defaultAlignment), es + [Free(a, isArray)]);
            SurvivesAs(h', r) <==> SurvivesAs(h, r) && r.address != a
  {
    var more := es + [Free(a, isArray)];
    assert more[..|more| - 1] == es;
    var h, h' := Exec(Initial(defaultAlignment), es), Exec(Initial(defaultAlignment), more);
    RunInv(defaultAlignment, es);
    RunInv(defaultAlignment, more);
    HeldIffSurvives(h.log, r);
    HeldIffSurvives(h'.log, r);
    NullIsNeverLive(defaultAlignment, es);
  }

  lemma NullIsNeverLive(defaultAlignment: nat, es: seq<Event>)
    ensures NULL !in Exec(Initial(defaultAlignment), es).d.live
  {
    LiveIsWhatTheCallsLeft(defaultAlignment, es, NULL);
    NoNull(es, |es|);
  }

  // ---------- The peak ----------

  /** The calls up to and including the last reset. */
  function LastReset(es: seq<Event>): (n: nat)
    ensures n <= |es|
  {
    if es == [] then 0 else if es[|es| - 1].Clear? then |es| else LastReset(es[..|es| - 1])
  }

  ghost function HeldBytes(defaultAlignment: nat, es: seq<Event>, m: nat): nat
    requires m <= |es|
  {
    Bytes(Exec(Initial(defaultAlignment), es[..m]).d.live)
  }

  /** The peak is the most bytes ever live since the last reset. */
  lemma {:induction false} PeakIsTheMostHeld(defaultAlignment: nat, es: seq<Event>)
    ensures var peak := Exec(Initial(defaultAlignment), es).d.stats.peakLiveBytes;
            && (forall m :: LastReset(es) <= m <= |es| ==> HeldBytes(defaultAlignment, es, m) <= peak)
            && exists m :: LastReset(es) <= m <= |es| && HeldBytes(defaultAlignment, es, m) == peak
  {
    hide HeldBytes;
    if es == [] || es[|es| - 1].Clear? {
      PeakOfNothing(defaultAlignment, es);
    } else {
      hide Exec;
      var before := es[..|es| - 1];
      PeakIsTheMostHeld(defaultAlignment, before);
      SameBytes(defaultAlignment, es);
      PeakNext(defaultAlignment, es);
      var top :| LastReset(before) <= top < |es| &&
                 HeldBytes(defaultAlignment, before, top) == Exec(Initial(defaultAlignment), before).d.stats.peakLiveBytes;
      assert HeldBytes(defaultAlignment, es, top) == HeldBytes(defaultAlignment, before, top);
    }
  }

  lemma PeakNext(defaultAlignment: nat, es: seq<Event>)
    requires es != [] && !es[|es| - 1].Clear?
    ensures var held := HeldBytes(defaultAlignment, es, |es|);
            var peak := Exec(Initial(defaultAlignment), es[..|es| - 1]).d.stats.peakLiveBytes;
            Exec(Initial(defaultAlignment), es).d.stats.peakLiveBytes == if held > peak then held else peak
  {
    hide Step, Totals, IsPeak;
    assert es[..|es|] == es;
    TotalsAlwaysAgree(defaultAlignment, es);
    RunInv(defaultAlignment, es[..|es| - 1]);
    PeakStep(Exec(Initial(defaultAlignment), es[..|es| - 1]), es[|es| - 1]);
  }

  lemma PeakOfNothing(defaultAlignment: nat, es: seq<Event>)
    requires es == [] || es[|es| - 1].Clear?
    ensures HeldBytes(defaultAlignment, es, |es|) == 0 == Exec(Initial(defaultAlignment), es).d.stats.peakLiveBytes
  {
    assert es[..|es|] == es;
  }

  lemma SameBytes(defaultAlignment: nat, es: seq<Event>)
    requires es != []
    ensures forall m :: 0 <= m < |es| ==>
              HeldBytes(defaultAlignment, es, m) == HeldBytes(defaultAlignment, es[..|es| - 1], m)
  {
    forall m | 0 <= m < |es|
      ensures HeldBytes(defaultAlignment, es, m) == HeldBytes(defaultAlignment, es[..|es| - 1], m)
    {
      assert es[..|es| - 1][..m] == es[..m];
    }
  }

  /** A call other than a reset raises the peak to what is then held, if that is more. */
  lemma PeakStep(h: History, e: Event)
    requires Inv(h) && !e.Clear?
    ensures var s, s' := h.d.stats, Step(h, e).d.stats;
            s'.peakLiveBytes == if s'.liveBytes > s.peakLiveBytes then s'.liveBytes else s.peakLiveBytes
  {
    assert HeldAfter(h.log, |h.log|) == h.d.stats.liveBytes by { assert h.log[..|h.log|] == h.log; }
  }
}
