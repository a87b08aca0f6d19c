/**
 Saving consumer offsets in the background.

 Commits change the map and set a dirty flag under one lock.  A flush takes a copy of the map and
 clears the flag under the same lock, saves the copy outside it, and sets the flag again when the
 save fails.
 */
module OffsetFlush {
  type Offsets = map<nat, nat>

  /** `flights`: copies taken whose save has not ended. */
  datatype State = State(offsets: Offsets, dirty: bool, file: Offsets, flights: seq<Offsets>)

  datatype Event =
    | Commit(consumer: nat, upTo: nat)
    | Begin
    | Saved(flight: nat)
    | Failed(flight: nat)

  function Without<T>(s: seq<T>, i: nat): (r: seq<T>)
    requires i < |s|
  {
    s[..i] + s[i + 1..]
  }

  ghost predicate Next(st: State, e: Event, st': State)
  {
    match e
    case Commit(consumer, upTo) => st' == st.(offsets := st.offsets[consumer := upTo], dirty := true)
    case Begin => st' == st.(dirty := false, flights := st.flights + [st.offsets])
    case Saved(i) => i < |st.flights| && st' == st.(file := st.flights[i], flights := Without(st.flights, i))
    case Failed(i) => i < |st.flights| && st' == st.(dirty := true, flights := Without(st.flights, i))
  }

  /** The tracker's fields and its atomic sections. */
  class ConsumerTracker {
    var offsets: Offsets
    var dirty: bool
    var file: Offsets
    var flights: seq<Offsets>

    ghost function Now(): (st: State)
      reads this
    {
      State(offsets, dirty, file, flights)
    }

    constructor (stored: Offsets)
      ensures Now() == State(stored, false, stored, [])
    {
      offsets, dirty, file, flights := stored, false, stored, [];
    }

    method CommitOffset(consumer: nat, upTo: nat)
      modifies this
      ensures Next(old(Now()), Commit(consumer, upTo), Now())
    {
      offsets := offsets[consumer := upTo];
      dirty := true;
    }

    /** The locked part of a flush; nothing happens while the flag is clear. */
    method BeginFlush() returns (began: bool)
      modifies this
      ensures began <==> old(dirty)
      ensures began ==> Next(old(Now()), Begin, Now())
      ensures !began ==> Now() == old(Now())
    {
      if !dirty {
        return false;
      }
      flights := flights + [offsets];
      dirty := false;
      began := true;
    }

    /** The end of a save. */
    method EndFlush(flight: nat, ok: bool)
      requires flight < |flights|
      modifies this
      ensures Next(old(Now()), if ok then Saved(flight) else Failed(flight), Now())
    {
      if ok {
        file := flights[flight];
      } else {
        dirty := true;
      }
      flights := Without(flights, flight);
    }

    /**
     A whole flush, whatever other flushers have in flight.  One that saves leaves the file equal to
     the map.  One that returns at once because the flag is clear promises that exactly when no copy
     is in flight or the file already equals the newest one.
     */
    method Flush(saves: bool) returns (ok: bool)
      requires Clean(Now())
      modifies this
      ensures offsets == old(offsets) && flights == old(flights)
      ensures ok <==> !old(dirty) || saves
      ensures old(dirty) && ok ==> file == offsets && !dirty
      ensures old(dirty) && !ok ==> file == old(file) && dirty
      ensures !old(dirty) ==> Now() == old(Now()) && (file == offsets <==> flights == [] || file == Newest(Now()))
    {
      var began := BeginFlush();
      if !began {
        return true;
      }
      assert Without(flights, |flights| - 1) == old(flights);
      EndFlush(|flights| - 1, saves);
      ok := saves;
    }
  }

  // ── Any number of flushers ─────────────────────────────────────────────────

  /** The last copy taken: in flight, or else in the file. */
  function Newest(st: State): (m: Offsets)
  {
    if st.flights == [] then st.file else st.flights[|st.flights| - 1]
  }

  /** Unless the flag is set, the last copy taken is the current map. */
  predicate Clean(st: State)
  {
    st.dirty || Newest(st) == st.offsets
  }

  /** The newest copy is saved, with the flag clear, while the copy before it is still in flight and differs from the map. */
  predicate Overtakes(st: State, e: Event)
  {
    && e.Saved? && !st.dirty && |st.flights| > 1 && e.flight == |st.flights| - 1
    && st.flights[|st.flights| - 2] != st.offsets
  }

  lemma NextCleanIff(st: State, e: Event, st': State)
    requires Clean(st) && Next(st, e, st')
    ensures Clean(st') <==> !Overtakes(st, e)
  {
    if e.Saved? || e.Failed? {
      var last := |st.flights| - 1;
      if e.flight < last {
        assert Newest(st') == Newest(st);
      } else if last > 0 && e.Saved? {
        assert st'.flights[|st'.flights| - 1] == st.flights[last - 1];
      }
    }
  }

  ghost predicate CleanTo(run: seq<State>, k: nat)
    requires k < |run|
  {
    forall i :: 0 <= i <= k ==> Clean(run[i])
  }

  ghost predicate InOrderTo(run: seq<State>, events: seq<Event>, k: nat)
    requires |run| == |events| + 1 && k < |run|
  {
    forall i :: 0 <= i < k ==> !Overtakes(run[i], events[i])
  }

  /**
   Under every interleaving of any number of committers and flushers, the last copy taken stays the
   current map, or the flag is set, all the way exactly when no newest copy overtakes a stale older one.
   */
  lemma {:induction false} CleanIff(run: seq<State>, events: seq<Event>, k: nat)
    requires IsRun(run, events) && k < |run|
    ensures CleanTo(run, k) <==> InOrderTo(run, events, k)
  {
    if k > 0 {
      CleanIff(run, events, k - 1);
      assert StepAt(run, events, k - 1);
      if Clean(run[k - 1]) {
        NextCleanIff(run[k - 1], events[k - 1], run[k]);
      }
      assert CleanTo(run, k) <==> CleanTo(run, k - 1) && Clean(run[k]);
      assert InOrderTo(run, events, k) <==> InOrderTo(run, events, k - 1) && !Overtakes(run[k - 1], events[k - 1]);
    }
  }

  /** So once nothing is in flight and the flag is clear, the file holds every committed offset. */
  lemma QuietMeansSaved(run: seq<State>, events: seq<Event>, k: nat)
    requires IsRun(run, events) && k < |run| && InOrderTo(run, events, k)
    requires run[k].flights == [] && !run[k].dirty
    ensures run[k].file == run[k].offsets
  {
    CleanIff(run, events, k);
    assert Clean(run[k]);
  }

  /** A shutdown flush finds the flag clear and returns while the loop's copy is unsaved. */
  lemma ShutdownFlushTooEarly() returns (run: seq<State>, events: seq<Event>)
    ensures IsRun(run, events) && |run| == 3
    ensures !run[2].dirty && Clean(run[2]) && run[2].flights != [] && run[2].file != run[2].offsets
  {
    var none: Offsets, one: Offsets := map[], map[1 := 1];
    run := [State(none, false, none, []), State(one, true, none, []), State(one, false, none, [one])];
    events := [Commit(1, 1), Begin];
    assert none[1 := 1] == one;
    assert StepAt(run, events, 0) && StepAt(run, events, 1);
    assert 1 in one && 1 !in none;
  }

  // ── One flusher ────────────────────────────────────────────────────────────

  /** One flusher at a time. */
  predicate Single(st: State, e: Event)
  {
    e.Begin? ==> st.flights == []
  }

  /** At most one copy in flight, and it, or else the file, is the current map unless the flag is set. */
  predicate Inv(st: State)
  {
    |st.flights| <= 1 && Clean(st)
  }

  lemma NextKeepsInv(st: State, e: Event, st': State)
    requires Inv(st) && Next(st, e, st') && Single(st, e)
    ensures Inv(st')
  {
  }

  ghost predicate StepAt(run: seq<State>, events: seq<Event>, k: nat)
    requires |run| == |events| + 1 && k < |events|
  {
    Next(run[k], events[k], run[k + 1])
  }

  ghost predicate IsRun(run: seq<State>, events: seq<Event>)
  {
    && |run| == |events| + 1
    && run[0].flights == [] && !run[0].dirty && run[0].file == run[0].offsets
    && forall k :: 0 <= k < |events| ==> StepAt(run, events, k)
  }

  /** Under every interleaving of any number of committers with one flusher, whatever saves fail. */
  lemma {:induction false} RunKeepsInv(run: seq<State>, events: seq<Event>, k: nat)
    requires IsRun(run, events) && k < |run|
    requires forall i :: 0 <= i < k ==> Single(run[i], events[i])
    ensures Inv(run[k])
  {
    if k > 0 {
      RunKeepsInv(run, events, k - 1);
      assert StepAt(run, events, k - 1);
      NextKeepsInv(run[k - 1], events[k - 1], run[k]);
    }
  }

  lemma {:induction false} NoCommitNoChange(run: seq<State>, events: seq<Event>, i: nat, k: nat)
    requires IsRun(run, events) && i <= k < |run|
    requires forall j :: i <= j < k ==> !events[j].Commit?
    ensures run[k].offsets == run[i].offsets
    decreases k
  {
    if i < k {
      NoCommitNoChange(run, events, i, k - 1);
      assert StepAt(run, events, k - 1);
    }
  }

  /**
   A flush that ends well at step `e` (its copy was taken at step `b`, with no commit since) leaves a
   file that holds every offset committed up to then, at every later state without a new commit.
   */
  lemma {:induction false} FlushedStaysFlushed(run: seq<State>, events: seq<Event>, b: nat, e: nat, k: nat)
    requires IsRun(run, events) && b < e < k < |run| && events[b].Begin? && events[e].Saved?
    requires forall j :: 0 <= j < k ==> Single(run[j], events[j])
    requires forall j :: b <= j < k ==> !events[j].Commit?
    requires forall j :: b < j < e ==> !events[j].Begin? && !events[j].Saved? && !events[j].Failed?
    ensures run[k].file == run[k].offsets
    decreases k
  {
    assert StepAt(run, events, k - 1);
    if k == e + 1 {
      StillInFlight(run, events, b, e);
      NoCommitNoChange(run, events, b, k);
    } else {
      FlushedStaysFlushed(run, events, b, e, k - 1);
      NoCommitNoChange(run, events, k - 1, k);
      FlightsCurrent(run, events, b, k - 1);
    }
  }

  lemma {:induction false} StillInFlight(run: seq<State>, events: seq<Event>, b: nat, j: nat)
    requires IsRun(run, events) && b < j < |run| && events[b].Begin? && run[b].flights == []
    requires forall i :: b < i < j ==> !events[i].Begin? && !events[i].Saved? && !events[i].Failed?
    ensures run[j].flights == [run[b].offsets]
    decreases j
  {
    assert StepAt(run, events, j - 1);
    if j > b + 1 {
      StillInFlight(run, events, b, j - 1);
    }
  }

  /** After the copy taken at `b`, with no commit since, every copy in flight is the current map. */
  lemma {:induction false} FlightsCurrent(run: seq<State>, events: seq<Event>, b: nat, j: nat)
    requires IsRun(run, events) && b < j < |run| && events[b].Begin? && run[b].flights == []
    requires forall i :: b <= i < j ==> !events[i].Commit?
    ensures forall f :: 0 <= f < |run[j].flights| ==> run[j].flights[f] == run[j].offsets
    decreases j
  {
    assert StepAt(run, events, j - 1);
    if j > b + 1 {
      FlightsCurrent(run, events, b, j - 1);
    }
  }

  /** Two flushers: the older copy is saved last, the flag is clear, and the newer commit is only in memory. */
  lemma OlderCopySavedLast() returns (run: seq<State>, events: seq<Event>)
    ensures IsRun(run, events) && |run| == 7
    ensures Overtakes(run[4], events[4]) && !run[6].dirty && run[6].flights == [] && run[6].file != run[6].offsets
  {
    var old1, new2: Offsets := map[1 := 1], map[1 := 2];
    var none: Offsets := map[];
    var s0 := State(none, false, none, []);
    var s1 := State(old1, true, none, []);
    var s2 := State(old1, false, none, [old1]);
    var s3 := State(new2, true, none, [old1]);
    var s4 := State(new2, false, none, [old1, new2]);
    var s5 := State(new2, false, new2, [old1]);
    var s6 := State(new2, false, old1, []);
    run := [s0, s1, s2, s3, s4, s5, s6];
    events := [Commit(1, 1), Begin, Commit(1, 2), Begin, Saved(1), Saved(0)];
    assert s0.offsets[1 := 1] == old1 && s2.offsets[1 := 2] == new2;
    assert Without([old1, new2], 1) == [old1] && Without([old1], 0) == [];
    assert StepAt(run, events, 0) && StepAt(run, events, 1) && StepAt(run, events, 2);
    assert StepAt(run, events, 3) && StepAt(run, events, 4) && StepAt(run, events, 5);
    assert old1[1] != new2[1];
  }
}
