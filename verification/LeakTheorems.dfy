/** What the snapshot queries answer, compared with the history of allocations and frees. */
module LeakTheorems {
  import opened Common
  import opened LeakModel

  /** Sorted by sequence number, each number once. */
  predicate Increasing(rs: seq<Record>) {
    forall i, j :: 0 <= i < j < |rs| ==> rs[i].sequence < rs[j].sequence
  }

  /** A live record numbered `since` or later. */
  predicate Leaky(live: map<nat, Record>, since: nat, r: Record) {
    r.address in live && live[r.address] == r && r.sequence >= since
  }

  /** What the query returns: the leaky records, in strictly increasing sequence. */
  ghost predicate ListsLeaks(live: map<nat, Record>, since: nat, rs: seq<Record>) {
    Increasing(rs) && forall r :: r in rs <==> Leaky(live, since, r)
  }

  // ---------- The map holds exactly the survivors ----------

  lemma {:induction false} SurvivorIsHeld(log: seq<Entry>, i: nat)
    requires Survives(log, i)
    ensures log[i].record.address in Holding(log) && Holding(log)[log[i].record.address] == log[i].record
  {
    var before := log[..|log| - 1];
    if i < |before| {
      assert Survives(before, i);
      SurvivorIsHeld(before, i);
      assert log[|log| - 1].Address() != log[i].Address();
    }
  }

  lemma {:induction false} HeldSurvives(log: seq<Entry>, a: nat) returns (i: nat)
    requires a in Holding(log)
    ensures Survives(log, i) && log[i].record.address == a && log[i].record == Holding(log)[a]
  {
    var before, last := log[..|log| - 1], log[|log| - 1];
    if last.Allocated? && last.record.address == a {
      i := |before|;
    } else {
      i := HeldSurvives(before, a);
      assert forall j :: i < j < |before| ==> log[j] == before[j];
    }
  }

  /** The map holds a record exactly when its allocation was neither freed nor replaced. */
  lemma HeldIffSurvives(log: seq<Entry>, r: Record)
    ensures (r.address in Holding(log) && Holding(log)[r.address] == r) <==>
            exists i :: Survives(log, i) && log[i].record == r
  {
    if r.address in Holding(log) && Holding(log)[r.address] == r {
      var i := HeldSurvives(log, r.address);
    }
    forall i | Survives(log, i) && log[i].record == r
      ensures r.address in Holding(log) && Holding(log)[r.address] == r
    {
      SurvivorIsHeld(log, i);
    }
  }

  lemma LiveSequencesDiffer(h: History, a: nat, b: nat)
    requires Inv(h) && a in h.d.live && b in h.d.live && a != b
    ensures h.d.live[a].sequence != h.d.live[b].sequence
  {
    var i := HeldSurvives(h.log, a);
    var j := HeldSurvives(h.log, b);
    if i < j {
      assert h.log[i].record.sequence < h.log[j].record.sequence;
    } else if j < i {
      assert h.log[j].record.sequence < h.log[i].record.sequence;
    }
  }

  lemma LiveAddress(h: History, a: nat)
    requires Inv(h) && a in h.d.live
    ensures h.d.live[a].address == a
  {
    var i := HeldSurvives(h.log, a);
  }

  // ---------- Sorted lists ----------

  lemma {:induction false} IncreasingUnique(xs: seq<Record>, ys: seq<Record>)
    requires Increasing(xs) && Increasing(ys) && forall r :: r in xs <==> r in ys
    ensures xs == ys
  {
    assert (xs != [] ==> xs[0] in xs) && (ys != [] ==> ys[0] in ys);
    if xs != [] {
      var x, y := xs[|xs| - 1], ys[|ys| - 1];
      assert x in ys && y in xs;
      var xs', ys' := xs[..|xs| - 1], ys[..|ys| - 1];
      assert x == y;
      forall r ensures r in xs' <==> r in ys' {
        InFront(xs, r);
        InFront(ys, r);
      }
      IncreasingUnique(xs', ys');
      assert xs == xs' + [x] && ys == ys' + [y];
    }
  }

  lemma InFront(xs: seq<Record>, r: Record)
    requires Increasing(xs) && xs != []
    ensures r in xs[..|xs| - 1] <==> r in xs && r != xs[|xs| - 1]
  {
    if r in xs && r != xs[|xs| - 1] {
      var i :| 0 <= i < |xs| && xs[i] == r;
      assert xs[..|xs| - 1][i] == r;
    }
  }

  /** Survivors come in strictly increasing sequence, and are those of the stretch asked for. */
  lemma {:induction false} SurvivorsIncrease(log: seq<Entry>, lo: nat, hi: nat, next: nat)
    requires hi <= |log| && Numbered(log, next)
    ensures Increasing(Survivors(log, lo, hi))
    ensures forall r :: r in Survivors(log, lo, hi) <==> exists i :: lo <= i < hi && Survives(log, i) && log[i].record == r
  {
    if lo < hi {
      var before := Survivors(log, lo, hi - 1);
      SurvivorsIncrease(log, lo, hi - 1, next);
      forall k | 0 <= k < |before| && Survives(log, hi - 1)
        ensures before[k].sequence < log[hi - 1].record.sequence
      {
        assert before[k] in before;
        var i :| lo <= i < hi - 1 && Survives(log, i) && log[i].record == before[k];
      }
      forall r ensures r in Survivors(log, lo, hi) <==> exists i :: lo <= i < hi && Survives(log, i) && log[i].record == r {
        if Survives(log, hi - 1) && r == log[hi - 1].record {
          assert Survivors(log, lo, hi)[|before|] == r;
        } else {
          assert r in Survivors(log, lo, hi) <==> r in before;
        }
      }
    }
  }

  predicate Distinct(rs: seq<Record>) {
    forall i, j :: 0 <= i < j < |rs| ==> rs[i].sequence != rs[j].sequence
  }

  /** Insertion by sequence number. */
  function Insert(rs: seq<Record>, r: Record): seq<Record> {
    if rs == [] || rs[|rs| - 1].sequence < r.sequence then rs + [r]
    else Insert(rs[..|rs| - 1], r) + [rs[|rs| - 1]]
  }

  function SortBySequence(rs: seq<Record>): (sorted: seq<Record>)
    ensures Distinct(rs) ==> Increasing(sorted)
    ensures forall r :: r in sorted <==> r in rs
  {
    if rs == [] then []
    else
      var before, r := SortBySequence(rs[..|rs| - 1]), rs[|rs| - 1];
      assert rs == rs[..|rs| - 1] + [r];
      InsertKeeps(before, r);
      assert Distinct(rs) ==> Increasing(Insert(before, r)) by {
        if Distinct(rs) { InsertSorts(before, r); }
      }
      Insert(before, r)
  }

  lemma {:induction false} InsertKeeps(rs: seq<Record>, r: Record)
    ensures forall x :: x in Insert(rs, r) <==> x in rs || x == r
  {
    if rs != [] && rs[|rs| - 1].sequence >= r.sequence {
      InsertKeeps(rs[..|rs| - 1], r);
      assert rs == rs[..|rs| - 1] + [rs[|rs| - 1]];
    }
  }

  lemma {:induction false} InsertSorts(rs: seq<Record>, r: Record)
    requires Increasing(rs) && forall x :: x in rs ==> x.sequence != r.sequence
    ensures Increasing(Insert(rs, r))
  {
    if rs != [] {
      var before, last := rs[..|rs| - 1], rs[|rs| - 1];
      assert last in rs;
      if last.sequence > r.sequence {
        InsertSorts(before, r);
        InsertKeeps(before, r);
        var more := Insert(before, r);
        forall i | 0 <= i < |more| ensures more[i].sequence < last.sequence {
          assert more[i] in more;
        }
      }
    }
  }

  // ---------- The snapshot queries ----------

  /** What was recorded from entry `from` on and survives is what the query for its number lists. */
  lemma ListIsSurvivors(h: History, from: nat, since: nat, rs: seq<Record>)
    requires Inv(h) && from <= |h.log| && ListsLeaks(h.d.live, since, rs)
    requires forall i :: 0 <= i < |h.log| && h.log[i].Allocated? ==> (i >= from <==> h.log[i].record.sequence >= since)
    ensures rs == Survivors(h.log, from, |h.log|)
  {
    SurvivorsIncrease(h.log, from, |h.log|, h.d.nextSequence);
    forall r ensures r in rs <==> r in Survivors(h.log, from, |h.log|) {
      HeldIffSurvives(h.log, r);
      if r in rs {
        var i :| Survives(h.log, i) && h.log[i].record == r;
        assert i >= from;
      }
    }
    IncreasingUnique(rs, Survivors(h.log, from, |h.log|));
  }

  /** The list is empty exactly when no surviving allocation is numbered from `since` on. */
  lemma LeaksListedIffAny(h: History, since: nat, rs: seq<Record>)
    requires Inv(h) && ListsLeaks(h.d.live, since, rs)
    ensures rs != [] <==> exists i :: Survives(h.log, i) && h.log[i].record.sequence >= since
  {
    if rs != [] {
      assert rs[0] in rs;
      HeldIffSurvives(h.log, rs[0]);
    }
    forall i | Survives(h.log, i) && h.log[i].record.sequence >= since ensures rs != [] {
      SurvivorIsHeld(h.log, i);
      assert h.log[i].record in rs;
    }
  }

  /** `h'` continues the history of `h`, with numbers from the next one of `h` up. */
  ghost predicate Continues(h: History, h': History) {
    && h.log <= h'.log && h.d.nextSequence <= h'.d.nextSequence
    && forall i :: |h.log| <= i < |h'.log| && h'.log[i].Allocated? ==> h'.log[i].record.sequence >= h.d.nextSequence
  }

  lemma StepContinues(h: History, e: Event)
    requires !e.Clear?
    ensures Continues(h, Step(h, e))
  {
  }

  /** A run without a reset only adds to the history. */
  lemma {:induction false} HistoryGrows(h: History, es: seq<Event>)
    requires Clear !in es
    ensures Continues(h, Exec(h, es))
  {
    if es != [] {
      var h1, e := Exec(h, es[..|es| - 1]), es[|es| - 1];
      HistoryGrows(h, es[..|es| - 1]);
      assert e in es;
      StepContinues(h1, e);
      ContinuesOn(h, h1, Step(h1, e));
    }
  }

  lemma ContinuesOn(h: History, h1: History, h2: History)
    requires Continues(h, h1) && Continues(h1, h2)
    ensures Continues(h, h2)
  {
    assert forall i :: 0 <= i < |h1.log| ==> h2.log[i] == h1.log[i];
  }

  /**
   The answer to a snapshot: after any run without a reset, the records listed are exactly the allocations recorded
   since the snapshot that were neither freed nor replaced, in the order they were made.
   */
  lemma LeaksSinceSnapshot(h: History, es: seq<Event>, rs: seq<Record>)
    requires Inv(h) && Clear !in es && ListsLeaks(Exec(h, es).d.live, h.d.nextSequence, rs)
    ensures |h.log| <= |Exec(h, es).log|
    ensures rs == Survivors(Exec(h, es).log, |h.log|, |Exec(h, es).log|)
  {
    ExecInv(h, es);
    HistoryGrows(h, es);
    var h' := Exec(h, es);
    forall i | 0 <= i < |h'.log| && h'.log[i].Allocated?
      ensures i >= |h.log| <==> h'.log[i].record.sequence >= h.d.nextSequence
    {
      if i < |h.log| { assert h'.log[i] == h.log[i]; }
    }
    ListIsSurvivors(h', |h.log|, h.d.nextSequence, rs);
  }

  /** Where in the history of the run the snapshot was taken: a reset forgets all that came before it. */
  function Mark(h: History, es: seq<Event>): nat {
    if Clear in es then 0 else |h.log|
  }

  /** The snapshot taken at `h` is answered right after the run `es`. */
  ghost predicate Answered(h: History, es: seq<Event>) {
    var h' := Exec(h, es);
    Mark(h, es) <= |h'.log| &&
    forall rs :: ListsLeaks(h'.d.live, h.d.nextSequence, rs) ==> rs == Survivors(h'.log, Mark(h, es), |h'.log|)
  }

  /** A reset starts the numbers again at 1, so a snapshot taken later than number 1 misses what follows the reset. */
  lemma ResetHidesLeaks(h: History)
    requires Inv(h) && h.d.nextSequence > 1
    ensures var es := [Clear, Switch(true), Allocate(1, 8, None, 0, false, 0, 0, true)];
            && ListsLeaks(Exec(h, es).d.live, h.d.nextSequence, [])
            && |Survivors(Exec(h, es).log, Mark(h, es), |Exec(h, es).log|)| == 1
  {
    var e := Allocate(1, 8, None, 0, false, 0, 0, true);
    var es := [Clear, Switch(true), e];
    var h2 := Step(Step(h, Clear), Switch(true));
    ThreeSteps(h, Clear, Switch(true), e);
    assert Exec(h, es).log == [Allocated(RecordOf(h2.d, e))];
    assert es[0] == Clear;
    OneSurvivor(Exec(h, es).log);
  }

  lemma ResetUnanswered(h: History) returns (es: seq<Event>)
    requires Inv(h) && h.d.nextSequence > 1
    ensures !Answered(h, es)
  {
    hide Exec;
    ResetHidesLeaks(h);
    es := [Clear, Switch(true), Allocate(1, 8, None, 0, false, 0, 0, true)];
  }

  lemma ThreeSteps(h: History, a: Event, b: Event, c: Event)
    ensures Exec(h, [a, b, c]) == Step(Step(Step(h, a), b), c)
  {
    assert [a, b, c][..2] == [a, b] && [a, b][..1] == [a] && [a][..0] == [];
    assert Exec(h, [a]) == Step(h, a);
  }

  lemma OneSurvivor(log: seq<Entry>)
    requires |log| == 1 && log[0].Allocated?
    ensures Survivors(log, 0, 1) == [log[0].record]
  {
    assert Survives(log, 0) && Survivors(log, 0, 0) == [];
  }

  /** The records numbered from `since` on. */
  function NumberedFrom(rs: seq<Record>, since: nat): seq<Record> {
    if rs == [] then []
    else NumberedFrom(rs[..|rs| - 1], since) + if rs[|rs| - 1].sequence >= since then [rs[|rs| - 1]] else []
  }

  lemma {:induction false} NumberedFromIs(rs: seq<Record>, since: nat)
    requires Increasing(rs)
    ensures Increasing(NumberedFrom(rs, since))
    ensures forall r :: r in NumberedFrom(rs, since) <==> r in rs && r.sequence >= since
  {
    if rs != [] {
      var before, last := rs[..|rs| - 1], rs[|rs| - 1];
      NumberedFromIs(before, since);
      assert rs == before + [last];
      var kept := NumberedFrom(before, since);
      forall i | 0 <= i < |kept| ensures kept[i].sequence < last.sequence {
        assert kept[i] in before;
      }
    }
  }

  /** What a query lists: the survivors numbered from the snapshot on. */
  lemma ListIs(h: History, since: nat, rs: seq<Record>)
    requires Inv(h)
    ensures ListsLeaks(h.d.live, since, rs) <==> rs == NumberedFrom(Survivors(h.log, 0, |h.log|), since)
  {
    var all := Survivors(h.log, 0, |h.log|);
    SurvivorsIncrease(h.log, 0, |h.log|, h.d.nextSequence);
    NumberedFromIs(all, since);
    forall r ensures r in NumberedFrom(all, since) <==> Leaky(h.d.live, since, r) {
      HeldIffSurvives(h.log, r);
    }
    if ListsLeaks(h.d.live, since, rs) { IncreasingUnique(rs, NumberedFrom(all, since)); }
  }

  lemma {:induction false} AllNumberedFrom(rs: seq<Record>, since: nat)
    ensures NumberedFrom(rs, since) == rs <==> forall i :: 0 <= i < |rs| ==> rs[i].sequence >= since
    ensures |NumberedFrom(rs, since)| <= |rs|
  {
    if rs != [] {
      var before, last := rs[..|rs| - 1], rs[|rs| - 1];
      AllNumberedFrom(before, since);
      NumberedNext(rs, since);
      hide NumberedFrom;
      assert rs == before + [last];
      if last.sequence >= since {
        SameFront(NumberedFrom(before, since), before, last);
        assert forall i :: 0 <= i < |before| ==> before[i] == rs[i];
      }
    }
  }

  lemma NumberedNext(rs: seq<Record>, since: nat)
    requires rs != []
    ensures NumberedFrom(rs, since) ==
            NumberedFrom(rs[..|rs| - 1], since) + if rs[|rs| - 1].sequence >= since then [rs[|rs| - 1]] else []
  {
  }

  lemma SameFront<A>(xs: seq<A>, ys: seq<A>, z: A)
    ensures xs + [z] == ys + [z] <==> xs == ys
  {
    if xs + [z] == ys + [z] {
      assert (xs + [z])[..|xs + [z]| - 1] == xs && (ys + [z])[..|ys + [z]| - 1] == ys;
    }
  }

  /**
   A snapshot is answered right after a given run exactly if the run resets nothing, or every survivor is numbered from
   the snapshot on.  The list of live allocations starts with the lowest number, so a caller can tell by its first entry.
   */
  lemma AnsweredIff(h: History, es: seq<Event>)
    requires Inv(h)
    ensures var h' := Exec(h, es); var all := Survivors(h'.log, 0, |h'.log|);
            && Increasing(all)
            && (Answered(h, es) <==> Clear !in es || all == [] || all[0].sequence >= h.d.nextSequence)
  {
    var h' := Exec(h, es);
    var all := Survivors(h'.log, 0, |h'.log|);
    ExecInv(h, es);
    SurvivorsIncrease(h'.log, 0, |h'.log|, h'.d.nextSequence);
    if Clear in es {
      var rs := NumberedFrom(all, h.d.nextSequence);
      ListIs(h', h.d.nextSequence, rs);
      AllNumberedFrom(all, h.d.nextSequence);
      forall rs' | ListsLeaks(h'.d.live, h.d.nextSequence, rs') ensures rs' == rs {
        ListIs(h', h.d.nextSequence, rs');
      }
    } else {
      NoResetAnswered(h, es);
    }
  }

  lemma NoResetAnswered(h: History, es: seq<Event>)
    requires Inv(h) && Clear !in es
    ensures Answered(h, es)
  {
    HistoryGrows(h, es);
    forall rs | ListsLeaks(Exec(h, es).d.live, h.d.nextSequence, rs)
      ensures rs == Survivors(Exec(h, es).log, |h.log|, |Exec(h, es).log|)
    {
      LeaksSinceSnapshot(h, es, rs);
    }
  }

  lemma SurvivorsNumbered(h: History)
    requires Inv(h)
    ensures forall r :: r in Survivors(h.log, 0, |h.log|) ==> r.sequence >= 1
  {
    SurvivorsIncrease(h.log, 0, |h.log|, h.d.nextSequence);
  }

  /** A snapshot is answered right after every run, resets included, exactly if nothing was numbered before it. */
  lemma SnapshotOutlivesResetsIff(h: History)
    requires Inv(h)
    ensures (forall es :: Answered(h, es)) <==> h.d.nextSequence == 1
  {
    if h.d.nextSequence > 1 {
      var es := ResetUnanswered(h);
    } else {
      forall es ensures Answered(h, es) {
        AnsweredIff(h, es);
        ExecInv(h, es);
        SurvivorsNumbered(Exec(h, es));
      }
    }
  }
}
