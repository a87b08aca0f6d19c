/**
 Event-sourced consumer offsets.

 A broker keeps the committed offset of each (group, shard) in memory and appends every advance to
 a meta stream.  On start it recovers the offsets from the stream, where a snapshot event replaces
 what came before and later commits are applied by maximum, and then appends a fresh snapshot.
 */
module OffsetLog {
  import opened Arith

  /** A (namespace, stream, group, shard). */
  type Slot = nat

  datatype Offset = Offset(slot: Slot, upTo: nat)

  /** Events of the meta stream; `Other` is any event of another type or one that does not parse. */
  datatype Meta = Commit(offset: Offset) | Snapshot(offsets: seq<Offset>) | Other

  /** A slot without an entry is at 0. */
  function At(m: map<Slot, nat>, slot: Slot): (n: nat)
  {
    if slot in m then m[slot] else 0
  }

  function Raise(m: map<Slot, nat>, offset: Offset): (m': map<Slot, nat>)
    ensures forall k :: At(m', k) == if k == offset.slot then Max(At(m, k), offset.upTo) else At(m, k)
  {
    m[offset.slot := Max(At(m, offset.slot), offset.upTo)]
  }

  /** Highest offset listed for a slot. */
  function Highest(offsets: seq<Offset>, slot: Slot): (n: nat)
  {
    if offsets == [] then 0
    else
      var last := offsets[|offsets| - 1];
      var before := Highest(offsets[..|offsets| - 1], slot);
      if last.slot == slot then Max(before, last.upTo) else before
  }

  /** What one event makes of a slot's recovered offset: replace at a snapshot, maximum at a commit. */
  function Applied(before: nat, e: Meta, slot: Slot): (n: nat)
  {
    if e.Snapshot? then Highest(e.offsets, slot)
    else if e.Commit? && e.offset.slot == slot then Max(before, e.offset.upTo)
    else before
  }

  function Recovered(log: seq<Meta>, slot: Slot): (n: nat)
  {
    if log == [] then 0 else Applied(Recovered(log[..|log| - 1], slot), log[|log| - 1], slot)
  }

  /** The reference: the highest commit ever stored, snapshots ignored. */
  function Best(log: seq<Meta>, slot: Slot): (n: nat)
  {
    if log == [] then 0
    else
      var before, e := Best(log[..|log| - 1], slot), log[|log| - 1];
      if e.Commit? && e.offset.slot == slot then Max(before, e.offset.upTo) else before
  }

  // ── The code's loops ───────────────────────────────────────────────────────

  method ApplyAll(start: map<Slot, nat>, offsets: seq<Offset>) returns (m: map<Slot, nat>)
    ensures forall k :: At(m, k) == Max(At(start, k), Highest(offsets, k))
  {
    m := start;
    for i := 0 to |offsets|
      invariant forall k :: At(m, k) == Max(At(start, k), Highest(offsets[..i], k))
    {
      assert offsets[..i + 1][..i] == offsets[..i];
      m := Raise(m, offsets[i]);
    }
    assert offsets[..|offsets|] == offsets;
  }

  /** One pass over the meta stream, in append order. */
  method Recover(log: seq<Meta>) returns (m: map<Slot, nat>)
    ensures forall k :: At(m, k) == Recovered(log, k)
  {
    m := map[];
    for i := 0 to |log|
      invariant forall k :: At(m, k) == Recovered(log[..i], k)
    {
      assert log[..i + 1][..i] == log[..i];
      match log[i]
      case Commit(o) => m := Raise(m, o);
      case Snapshot(offsets) => m := ApplyAll(map[], offsets);
      case Other =>
    }
    assert log[..|log|] == log;
  }

  /** The recovered map as a list, in some order. */
  method ToList(m: map<Slot, nat>) returns (offsets: seq<Offset>)
    ensures forall k :: Highest(offsets, k) == At(m, k)
  {
    offsets := [];
    var rest := m.Keys;
    while rest != {}
      invariant rest <= m.Keys
      invariant forall k :: Highest(offsets, k) == if k in rest then 0 else At(m, k)
      decreases |rest|
    {
      var slot :| slot in rest;
      ghost var before := offsets;
      offsets := offsets + [Offset(slot, m[slot])];
      assert offsets[..|before|] == before;
      rest := rest - {slot};
    }
  }

  // ── Sessions ───────────────────────────────────────────────────────────────

  /** `Loaded` lies between reading the meta stream and the start-up snapshot. */
  datatype Phase = Down | Loaded(offsets: seq<Offset>) | Serving

  /**
   `pending`: advanced in memory, append not finished; `acked`: answered with advanced = true;
   `adrift`: snapshots taken but not in the stream, by sessions that ended or by other brokers.
   */
  datatype State = State(log: seq<Meta>, memory: map<Slot, nat>, phase: Phase, pending: set<Offset>, acked: set<Offset>,
                         adrift: set<seq<Offset>>)

  /**
   `Late` and `LateSnapshot`: an append of an earlier session or of another broker reaches the
   stream; `OtherLoads`: another broker reads the stream to take its start-up snapshot.
   */
  datatype Event =
    | Start
    | Compact(applied: bool)
    | Advance(offset: Offset)
    | Stale(offset: Offset)
    | Persist(offset: Offset, reported: bool)
    | Drop(offset: Offset)
    | Crash
    | Late(offset: Offset)
    | OtherLoads(offsets: seq<Offset>)
    | LateSnapshot(offsets: seq<Offset>)

  ghost predicate Next(st: State, e: Event, st': State)
  {
    match e
    case Start =>
      && st.phase.Down? && st'.phase.Loaded?
      && (forall k :: Highest(st'.phase.offsets, k) == Recovered(st.log, k) == At(st'.memory, k))
      && st' == st.(memory := st'.memory, phase := st'.phase)
    case Compact(applied) =>
      && st.phase.Loaded?
      && st' == if applied then st.(log := st.log + [Snapshot(st.phase.offsets)], phase := Serving)
                else st.(phase := Serving, adrift := st.adrift + {st.phase.offsets})
    case Advance(o) =>
      && st.phase.Serving? && o.upTo > At(st.memory, o.slot)
      && st' == st.(memory := st.memory[o.slot := o.upTo], pending := st.pending + {o})
    case Stale(o) =>
      && st.phase.Serving? && o.upTo <= At(st.memory, o.slot)
      && st' == st.(memory := st.memory[o.slot := At(st.memory, o.slot)])
    case Persist(o, reported) =>
      && st.phase.Serving? && o in st.pending
      && st' == st.(log := st.log + [Commit(o)], pending := st.pending - {o}, acked := if reported then st.acked + {o} else st.acked)
    case Drop(o) => st' == st.(pending := st.pending - {o})
    case Crash =>
      st' == st.(phase := Down, memory := map[], pending := {},
                 adrift := if st.phase.Loaded? then st.adrift + {st.phase.offsets} else st.adrift)
    case Late(o) => st' == st.(log := st.log + [Commit(o)])
    case OtherLoads(offsets) =>
      && (forall k :: Highest(offsets, k) == Recovered(st.log, k))
      && st' == st.(adrift := st.adrift + {offsets})
    case LateSnapshot(offsets) =>
      && offsets in st.adrift
      && st' == st.(log := st.log + [Snapshot(offsets)], adrift := st.adrift - {offsets})
  }

  /** The snapshot lists everything in the stream. */
  ghost predicate UpToDate(offsets: seq<Offset>, log: seq<Meta>)
  {
    forall k :: Best(log, k) <= Highest(offsets, k)
  }

  /** A snapshot entering the stream is up to date then. */
  ghost predicate Current(st: State, e: Event)
  {
    && (e.Compact? && e.applied && st.phase.Loaded? ==> UpToDate(st.phase.offsets, st.log))
    && (e.LateSnapshot? ==> UpToDate(e.offsets, st.log))
  }

  ghost predicate Faithful(log: seq<Meta>)
  {
    forall k :: Recovered(log, k) == Best(log, k)
  }

  /** A snapshot claims nothing that was not committed. */
  ghost predicate Backed(offsets: seq<Offset>, log: seq<Meta>)
  {
    forall k :: Highest(offsets, k) <= Best(log, k)
  }

  /** Recovery invents nothing, and neither do the snapshots that may still arrive. */
  ghost predicate Inv(st: State)
  {
    && (forall k :: Recovered(st.log, k) <= Best(st.log, k))
    && (st.phase.Loaded? ==> Backed(st.phase.offsets, st.log))
    && forall offsets :: offsets in st.adrift ==> Backed(offsets, st.log)
  }

  /** Every answered commit is in the stream. */
  ghost predicate AckedStored(st: State)
  {
    forall o :: o in st.acked ==> o.upTo <= Best(st.log, o.slot)
  }

  /** The stream is never ahead of memory. */
  ghost predicate Bounded(st: State)
  {
    if st.phase.Down? then st.pending == {}
    else
      && (forall k :: Best(st.log, k) <= At(st.memory, k))
      && (forall o :: o in st.pending ==> o.upTo <= At(st.memory, o.slot))
      && (st.phase.Loaded? ==> UpToDate(st.phase.offsets, st.log))
  }

  lemma Appended(log: seq<Meta>, e: Meta, slot: Slot)
    ensures Best(log + [e], slot) == if e.Commit? && e.offset.slot == slot then Max(Best(log, slot), e.offset.upTo) else Best(log, slot)
    ensures Recovered(log + [e], slot) == Applied(Recovered(log, slot), e, slot)
  {
    assert (log + [e])[..|log|] == log;
  }

  /** Every step keeps the invariant, and takes a faithful stream to a faithful one exactly if it is `Current`. */
  lemma NextKeepsInv(st: State, e: Event, st': State)
    requires Inv(st) && Next(st, e, st')
    ensures Inv(st')
    ensures Faithful(st.log) ==> (Faithful(st'.log) <==> Current(st, e))
  {
    if st'.log != st.log {
      var meta := st'.log[|st.log|];
      assert st'.log == st.log + [meta];
      forall k
        ensures Best(st'.log, k) >= Best(st.log, k) && Recovered(st'.log, k) <= Best(st'.log, k)
        ensures meta.Snapshot? ==> Recovered(st'.log, k) == Highest(meta.offsets, k) && Best(st'.log, k) == Best(st.log, k)
        ensures meta.Commit? && Recovered(st.log, k) == Best(st.log, k) ==> Recovered(st'.log, k) == Best(st'.log, k)
      {
        Appended(st.log, meta, k);
      }
    }
  }

  lemma NextKeepsAcked(st: State, e: Event, st': State)
    requires AckedStored(st) && Next(st, e, st')
    ensures AckedStored(st')
  {
  }

  lemma NextKeepsBounded(st: State, e: Event, st': State)
    requires Faithful(st.log) && Bounded(st) && Next(st, e, st') && !e.Late?
    ensures Bounded(st')
  {
  }

  ghost predicate IsRun(run: seq<State>, events: seq<Event>)
  {
    && |run| == |events| + 1 && run[0] == State([], map[], Down, {}, {}, {})
    && forall i :: 0 <= i < |events| ==> Next(run[i], events[i], run[i + 1])
  }

  lemma {:induction false} RunKeepsInv(run: seq<State>, events: seq<Event>, i: nat)
    requires IsRun(run, events) && i < |run|
    ensures Inv(run[i]) && AckedStored(run[i])
  {
    if i > 0 {
      RunKeepsInv(run, events, i - 1);
      NextKeepsInv(run[i - 1], events[i - 1], run[i]);
      NextKeepsAcked(run[i - 1], events[i - 1], run[i]);
    }
  }

  /**
   Over any number of sessions and brokers, whatever appends failed, went unreported or arrived
   late: if each snapshot was up to date when it entered the stream, recovery finds exactly the
   highest stored commit of every slot, and with it every commit that was answered.
   */
  lemma {:induction false} RecoveryFindsEveryCommit(run: seq<State>, events: seq<Event>, i: nat)
    requires IsRun(run, events) && i < |run|
    requires forall j :: 0 <= j < i ==> Current(run[j], events[j])
    ensures Faithful(run[i].log)
    ensures forall o :: o in run[i].acked ==> o.upTo <= Recovered(run[i].log, o.slot)
  {
    RunKeepsInv(run, events, i);
    if i > 0 {
      RecoveryFindsEveryCommit(run, events, i - 1);
      RunKeepsInv(run, events, i - 1);
      NextKeepsInv(run[i - 1], events[i - 1], run[i]);
    }
  }

  /** With a single broker whose appends never outlive it, every snapshot is up to date and recovery never runs ahead of memory. */
  lemma {:induction false} RecoveryNeverAhead(run: seq<State>, events: seq<Event>, i: nat)
    requires IsRun(run, events) && i < |run|
    requires forall j :: 0 <= j < i ==> !events[j].Late? && !events[j].LateSnapshot?
    ensures Faithful(run[i].log) && Bounded(run[i])
    ensures !run[i].phase.Down? ==> forall k :: Recovered(run[i].log, k) <= At(run[i].memory, k)
  {
    if i > 0 {
      RecoveryNeverAhead(run, events, i - 1);
      RunKeepsInv(run, events, i - 1);
      NextKeepsInv(run[i - 1], events[i - 1], run[i]);
      NextKeepsBounded(run[i - 1], events[i - 1], run[i]);
    }
  }

  // ── What a snapshot can lose ───────────────────────────────────────────────

  function Commits(offsets: seq<Offset>): (log: seq<Meta>)
    ensures |log| == |offsets| && forall i :: 0 <= i < |log| ==> log[i] == Commit(offsets[i])
  {
    seq(|offsets|, i requires 0 <= i < |offsets| => Commit(offsets[i]))
  }

  lemma {:induction false} BestOfCommits(log: seq<Meta>, offsets: seq<Offset>, slot: Slot)
    ensures Best(log + Commits(offsets), slot) == Max(Best(log, slot), Highest(offsets, slot))
  {
    if offsets == [] {
      assert log + Commits(offsets) == log;
    } else {
      var last := |offsets| - 1;
      BestOfCommits(log, offsets[..last], slot);
      assert log + Commits(offsets) == (log + Commits(offsets[..last])) + [Commit(offsets[last])];
      Appended(log + Commits(offsets[..last]), Commit(offsets[last]), slot);
    }
  }

  /**
   Commits that reach the stream between a broker's load and its snapshot are lost to recovery
   exactly when one of them is above what was loaded.
   */
  lemma SnapshotFaithfulIff(log: seq<Meta>, loaded: seq<Offset>, late: seq<Offset>)
    requires Faithful(log) && forall k :: Highest(loaded, k) == Recovered(log, k)
    ensures Faithful(log + Commits(late) + [Snapshot(loaded)]) <==> forall k :: Highest(late, k) <= Highest(loaded, k)
  {
    var grown := log + Commits(late);
    forall k
      ensures Recovered(grown + [Snapshot(loaded)], k) == Best(grown + [Snapshot(loaded)], k) <==> Highest(late, k) <= Highest(loaded, k)
    {
      Appended(grown, Snapshot(loaded), k);
      BestOfCommits(log, late, k);
    }
    if !Faithful(grown + [Snapshot(loaded)]) {
      var k :| Recovered(grown + [Snapshot(loaded)], k) != Best(grown + [Snapshot(loaded)], k);
      assert Highest(late, k) > Highest(loaded, k);
    }
  }

  lemma {:induction false} BestSplit(log: seq<Meta>, p: nat, slot: Slot)
    requires p <= |log|
    ensures Best(log, slot) == Max(Best(log[..p], slot), Best(log[p..], slot))
  {
    var last := |log| - 1;
    if p == |log| {
      assert log[..p] == log;
    } else {
      BestSplit(log[..last], p, slot);
      assert log[..last][..p] == log[..p] && log[p..][..last - p] == log[..last][p..];
    }
  }

  /** What the last snapshot leaves to recovery: its own list and the commits after it. */
  lemma {:induction false} RecoveredSince(log: seq<Meta>, p: nat, slot: Slot)
    requires p < |log| && log[p].Snapshot? && forall i :: p < i < |log| ==> !log[i].Snapshot?
    ensures Recovered(log, slot) == Max(Highest(log[p].offsets, slot), Best(log[p + 1..], slot))
  {
    var last := |log| - 1;
    if p < last {
      RecoveredSince(log[..last], p, slot);
      assert log[p + 1..][..last - (p + 1)] == log[..last][p + 1..];
    }
  }

  /**
   In every state of every run: a slot's highest commit is recovered exactly when the last snapshot
   lists it or a commit after that snapshot reaches it.
   */
  lemma CommitRecoveredIff(run: seq<State>, events: seq<Event>, i: nat, p: nat, slot: Slot)
    requires IsRun(run, events) && i < |run|
    requires p < |run[i].log| && run[i].log[p].Snapshot? && forall j :: p < j < |run[i].log| ==> !run[i].log[j].Snapshot?
    ensures var log := run[i].log;
            Recovered(log, slot) == Best(log, slot) <==>
            Best(log[..p], slot) <= Max(Highest(log[p].offsets, slot), Best(log[p + 1..], slot))
  {
    RunKeepsInv(run, events, i);
    RecoveredSince(run[i].log, p, slot);
    BestAround(run[i].log, p, slot);
  }

  lemma BestAround(log: seq<Meta>, p: nat, slot: Slot)
    requires p < |log| && log[p].Snapshot?
    ensures Best(log, slot) == Max(Best(log[..p], slot), Best(log[p + 1..], slot))
  {
    BestSplit(log, p + 1, slot);
    Appended(log[..p], log[p], slot);
    assert log[..p + 1] == log[..p] + [log[p]];
  }

  /** One broker loads, another's commit arrives, and the first one's snapshot hides it. */
  lemma HiddenCommit() returns (run: seq<State>, events: seq<Event>)
    ensures IsRun(run, events) && |run| == 4 && events == [Start, Late(Offset(1, 5)), Compact(true)] && !Current(run[2], events[2])
    ensures Best(run[3].log, 1) == 5 && Recovered(run[3].log, 1) == 0
  {
    var s0 := State([], map[], Down, {}, {}, {});
    var s1 := s0.(phase := Loaded([]));
    var s2 := s1.(log := s1.log + [Commit(Offset(1, 5))]);
    var s3 := s2.(log := s2.log + [Snapshot([])], phase := Serving);
    run, events := [s0, s1, s2, s3], [Start, Late(Offset(1, 5)), Compact(true)];
    EmptyStart(s0, s1);
    LateThenCompact(s1, Offset(1, 5), s2, s3);
    assert Best(s2.log, 1) > Highest(s2.phase.offsets, 1);
  }

  lemma EmptyStart(st: State, st': State)
    requires st.log == [] && st.phase.Down? && st' == st.(memory := map[], phase := Loaded([]))
    ensures Next(st, Start, st')
  {
  }

  lemma LateThenCompact(st: State, o: Offset, mid: State, st': State)
    requires st.phase == Loaded([]) && mid == st.(log := st.log + [Commit(o)])
    requires st' == mid.(log := mid.log + [Snapshot([])], phase := Serving)
    ensures Next(st, Late(o), mid) && Next(mid, Compact(true), st')
    ensures Best(st'.log, o.slot) == Best(mid.log, o.slot) == Max(Best(st.log, o.slot), o.upTo) && Recovered(st'.log, o.slot) == 0
  {
    Appended(st.log, Commit(o), o.slot);
    Appended(mid.log, Snapshot([]), o.slot);
  }
}
