/**
 Which first record the header of the active segment names.

 A segment may be created ahead, for the record that would come next then; batches written before the
 roll still go into the old segment, and the roll takes the prepared segment with its header as it is.
 */
module SegmentHeaders {
  import opened Wrappers
  import opened Committer

  function Active(sh: Shard): (seg: Segment)
    requires Fits(sh.mgr)
  {
    sh.mgr.segments[|sh.mgr.segments| - 1]
  }

  /** The header names the record the segment begins with, or will begin with. */
  predicate HeaderTrue(sh: Shard)
    requires Fits(sh.mgr)
  {
    Active(sh).base == if Active(sh).records != [] then Active(sh).records[0] else sh.committed
  }

  /** A segment is prepared, but for a record that has been committed since. */
  predicate Stale(sh: Shard)
  {
    sh.mgr.prepared.Some? && sh.mgr.prepared.value != sh.committed
  }

  lemma WriteKeepsHeader(a: Shard, b: Shard, last: nat, late: bool, prepares: bool)
    requires Fits(a.mgr) && a.committed <= last && b == Batched(a, last, late, prepares)
    ensures Fits(b.mgr) && (HeaderTrue(b) <==> HeaderTrue(a))
  {
    assert Active(b).base == Active(a).base && Active(b).records == Active(a).records + Range(a.committed, last + 1);
  }

  lemma SyncKeepsHeader(a: Shard, b: Shard)
    requires Fits(a.mgr) && Fits(b.mgr) && (a.mgr == b.mgr || MoreSynced(a.mgr.segments, b.mgr.segments)) && a.committed == b.committed
    ensures HeaderTrue(b) <==> HeaderTrue(a)
  {
    var last := |a.mgr.segments| - 1;
    assert a.mgr.segments[last].base == b.mgr.segments[last].base && a.mgr.segments[last].records == b.mgr.segments[last].records;
  }

  /** Only a roll decides about the header anew: it is true exactly if what was prepared is not stale. */
  lemma HeaderStep(w: seq<Shard>, e: Event, w': seq<Shard>, s: nat)
    requires s < |w| && Next(w, e, w')
    ensures s < |w'| && Fits(w[s].mgr) && Fits(w'[s].mgr)
    ensures HeaderTrue(w'[s]) <==> if e == RollSegment(s) then !Stale(w[s]) else HeaderTrue(w[s])
  {
    match e
    case Commit(t, last, prepares) =>
      if t == s {
        WriteKeepsHeader(w[s], w'[s], last, false, prepares);
      }
    case FailAfterWrite(t, last) =>
      if t == s {
        WriteKeepsHeader(w[s], w'[s], last, true, false);
      }
    case SyncPass(failAt) =>
      assert ShardSynced(w[s], w'[s], failAt[s], Reached(w, failAt, s), Reached(w, failAt, |w|));
      SyncKeepsHeader(w[s], w'[s]);
    case Drain(fails) =>
      assert DrainEffect(w[s].mgr, w'[s].mgr, fails[s]);
      SyncKeepsHeader(w[s], w'[s]);
    case _ =>
  }

  ghost predicate TrueAt(w: seq<Shard>, s: nat)
  {
    s < |w| && Fits(w[s].mgr) && HeaderTrue(w[s])
  }

  ghost predicate StaleAt(w: seq<Shard>, s: nat)
  {
    s < |w| && Stale(w[s])
  }

  /** The last roll of the shard before step `n` took no stale segment; without a roll, the shard was opened under a true header. */
  ghost predicate RolledFresh(run: seq<seq<Shard>>, events: seq<Event>, n: nat, s: nat)
    requires n <= |events| < |run|
  {
    if n == 0 then TrueAt(run[0], s)
    else if events[n - 1] == RollSegment(s) then !StaleAt(run[n - 1], s)
    else RolledFresh(run, events, n - 1, s)
  }

  lemma HeaderDecided(w: seq<Shard>, e: Event, w': seq<Shard>, s: nat, fresh': bool)
    requires s < |w| && Next(w, e, w') && (TrueAt(w, s) <==> fresh')
    ensures s < |w'| && (TrueAt(w', s) <==> if e == RollSegment(s) then !StaleAt(w, s) else fresh')
  {
    HeaderStep(w, e, w', s);
  }

  /** Over any run, late failures included, the header of the active segment is true if and only if the last roll was fresh. */
  lemma {:induction false} HeaderTrueIff(run: seq<seq<Shard>>, events: seq<Event>, n: nat, s: nat)
    requires IsRun(run, events) && n < |run| && s < |run[0]|
    ensures s < |run[n]| && (TrueAt(run[n], s) <==> RolledFresh(run, events, n, s))
  {
    if n > 0 {
      var w, e, w' := run[n - 1], events[n - 1], run[n];
      HeaderTrueIff(run, events, n - 1, s);
      assert StepAt(run, events, n - 1);
      HeaderDecided(w, e, w', s, RolledFresh(run, events, n - 1, s));
    }
  }

  // ── What makes a prepared segment stale ────────────────────────────────────

  /** The batch at step `i` had the next segment created, and no roll took it before step `k`. */
  ghost predicate PreparedBy(run: seq<seq<Shard>>, events: seq<Event>, i: nat, k: nat, s: nat)
    requires k <= |events| < |run|
  {
    && i < k && s < |run[i]| && events[i].Commit? && events[i].s == s && events[i].prepares && run[i][s].mgr.prepared.None?
    && forall j :: i < j < k ==> events[j] != RollSegment(s)
  }

  ghost predicate CommittedIn(events: seq<Event>, i: nat, k: nat, s: nat)
    requires k <= |events|
  {
    exists j :: i < j < k && events[j].Commit? && events[j].s == s
  }

  lemma CommittedStep(events: seq<Event>, i: nat, k: nat, s: nat)
    requires i + 1 < k <= |events|
    ensures CommittedIn(events, i, k, s) <==> CommittedIn(events, i, k - 1, s) || (events[k - 1].Commit? && events[k - 1].s == s)
  {
    if events[k - 1].Commit? && events[k - 1].s == s {
      assert CommittedIn(events, i, k, s);
    } else if CommittedIn(events, i, k, s) {
      var j :| i < j < k && events[j].Commit? && events[j].s == s;
      assert j < k - 1;
    }
  }

  /** What one step does to what is prepared and to the committed cursor. */
  lemma PreparedStep(w: seq<Shard>, e: Event, w': seq<Shard>, s: nat)
    requires s < |w| && Next(w, e, w')
    ensures s < |w'|
    ensures w[s].mgr.prepared.Some? && e != RollSegment(s) ==> w'[s].mgr.prepared == w[s].mgr.prepared
    ensures w[s].mgr.prepared.None? && w'[s].mgr.prepared.Some? ==>
              e.Commit? && e.s == s && e.prepares && w'[s].mgr.prepared == Some(w'[s].committed)
    ensures e.Commit? && e.s == s && e.prepares && w[s].mgr.prepared.None? ==> w'[s].mgr.prepared == Some(w'[s].committed)
    ensures e == RollSegment(s) ==> w'[s].mgr.prepared.None?
    ensures w'[s].committed >= w[s].committed && (w'[s].committed > w[s].committed <==> e.Commit? && e.s == s)
  {
    match e
    case SyncPass(failAt) =>
      assert ShardSynced(w[s], w'[s], failAt[s], Reached(w, failAt, s), Reached(w, failAt, |w|));
    case Drain(fails) =>
      assert DrainEffect(w[s].mgr, w'[s].mgr, fails[s]);
    case _ =>
  }

  /** A prepared segment is stale at step `k` if and only if a batch was committed since it was prepared. */
  lemma {:induction false} StaleIff(run: seq<seq<Shard>>, events: seq<Event>, i: nat, k: nat, s: nat)
    requires IsRun(run, events) && k < |run| && PreparedBy(run, events, i, k, s)
    ensures s < |run[k]| && s < |run[i + 1]|
    ensures run[k][s].mgr.prepared == Some(run[i + 1][s].committed) && run[k][s].committed >= run[i + 1][s].committed
    ensures Stale(run[k][s]) <==> CommittedIn(events, i, k, s)
    decreases k
  {
    if i + 1 == k {
      assert StepAt(run, events, i);
      PreparedStep(run[i], events[i], run[k], s);
    } else {
      StaleIff(run, events, i, k - 1, s);
      assert StepAt(run, events, k - 1);
      PreparedStep(run[k - 1], events[k - 1], run[k], s);
      CommittedStep(events, i, k, s);
    }
  }

  /** A segment is prepared at step `k` only if some batch had it created and no roll took it. */
  lemma {:induction false} PreparedFrom(run: seq<seq<Shard>>, events: seq<Event>, k: nat, s: nat) returns (i: nat)
    requires IsRun(run, events) && 0 < k < |run| && s < |run[0]| && s < |run[k]| && run[k][s].mgr.prepared.Some?
    ensures PreparedBy(run, events, i, k, s)
  {
    var w, e, w' := run[k - 1], events[k - 1], run[k];
    assert Opened(run[0][s]);
    SameShards(run, events, k - 1);
    assert StepAt(run, events, k - 1);
    PreparedStep(w, e, w', s);
    if w[s].mgr.prepared.None? {
      i := k - 1;
    } else {
      i := PreparedFrom(run, events, k - 1, s);
      PreparedMore(run, events, i, k, s);
    }
  }

  lemma PreparedMore(run: seq<seq<Shard>>, events: seq<Event>, i: nat, k: nat, s: nat)
    requires 0 < k <= |events| < |run| && PreparedBy(run, events, i, k - 1, s) && events[k - 1] != RollSegment(s)
    ensures PreparedBy(run, events, i, k, s)
  {
  }

  // ── A stale header ─────────────────────────────────────────────────────────

  /** The run forgets nothing of its only shard, and no batch fails late. */
  ghost predicate Calm(run: seq<seq<Shard>>, events: seq<Event>)
  {
    IsRun(run, events) && forall k :: 0 <= k < |events| ==> SparesAt(run[k], events[k], 0) && !Late(events[k], 0)
  }

  lemma CalmStart(n: nat) returns (run: seq<seq<Shard>>, events: seq<Event>)
    ensures Calm(run, events) && run[|events|] == [Fresh(n)]
  {
    run, events := FreshReachable(n);
    forall k | 0 <= k < |events|
      ensures SparesAt(run[k], events[k], 0) && !Late(events[k], 0)
    {
      assert events[k] in events;
    }
  }

  /** Segment 2 is prepared after record 0, takes over after record 1 and gets record 2; everything is synced. */
  lemma StaleRun() returns (run: seq<seq<Shard>>, events: seq<Event>)
    ensures Calm(run, events)
    ensures run[|events|] == [Fresh(3).(committed := 3, durable := 3, completed := 3,
                                        mgr := Manager([Segment(0, [0, 1], 2), Segment(1, [2], 1)], [], None))]
  {
    run, events := CalmStart(3);
    var a := Fresh(3);
    var b := a.(mgr := Manager([Segment(0, [0], 0)], [], Some(1)), committed := 1);
    var c := b.(mgr := Manager([Segment(0, [0, 1], 0)], [], Some(1)), committed := 2);
    var d := c.(mgr := Manager([Segment(0, [0, 1], 0), Segment(1, [], 0)], [0], None));
    var e := d.(mgr := Manager([Segment(0, [0, 1], 0), Segment(1, [2], 0)], [0], None), committed := 3);
    var f := e.(mgr := Manager([Segment(0, [0, 1], 2), Segment(1, [2], 1)], [], None), durable := 3, completed := 3);
    StaleWrites(a, b, c);
    StaleRoll(c, d, e, f);
    run, events := Extend(run, events, Commit(0, 0, true), a, b);
    run, events := Extend(run, events, Commit(0, 1, false), b, c);
    run, events := Extend(run, events, RollSegment(0), c, d);
    run, events := Extend(run, events, Commit(0, 2, false), d, e);
    run, events := Extend(run, events, SyncPass([2]), e, f);
  }

  lemma StaleWrites(a: Shard, b: Shard, c: Shard)
    requires a == Fresh(3) && b == a.(mgr := Manager([Segment(0, [0], 0)], [], Some(1)), committed := 1)
    requires c == b.(mgr := Manager([Segment(0, [0, 1], 0)], [], Some(1)), committed := 2)
    ensures Next([a], Commit(0, 0, true), [b]) && Next([b], Commit(0, 1, false), [c])
  {
    AppendOne(a.mgr, 0, Manager([Segment(0, [0], 0)], [], None));
    AppendOne(b.mgr, 1, c.mgr);
  }

  lemma StaleRoll(c: Shard, d: Shard, e: Shard, f: Shard)
    requires c.mgr == Manager([Segment(0, [0, 1], 0)], [], Some(1)) && c.committed == 2 && c.avail == 3 && c.completed == 0
    requires d == c.(mgr := Manager([Segment(0, [0, 1], 0), Segment(1, [], 0)], [0], None))
    requires e == d.(mgr := Manager([Segment(0, [0, 1], 0), Segment(1, [2], 0)], [0], None), committed := 3)
    requires f == e.(mgr := Manager([Segment(0, [0, 1], 2), Segment(1, [2], 1)], [], None), durable := 3, completed := 3)
    ensures Next([c], RollSegment(0), [d]) && Next([d], Commit(0, 2, false), [e])
    ensures Next([e], SyncPass([2]), [f]) && SparesAt([e], SyncPass([2]), 0)
  {
    assert Roll(c.mgr, 2) == d.mgr;
    AppendOne(d.mgr, 2, e.mgr);
    StaleSync(e, f);
  }

  lemma StaleSync(e: Shard, f: Shard)
    requires e.mgr == Manager([Segment(0, [0, 1], 0), Segment(1, [2], 0)], [0], None) && e.committed == 3 && e.completed == 0
    requires f == e.(mgr := Manager([Segment(0, [0, 1], 2), Segment(1, [2], 1)], [], None), durable := 3, completed := 3)
    ensures Next([e], SyncPass([2]), [f]) && SparesAt([e], SyncPass([2]), 0)
  {
    assert e.mgr.pending[..1] == [0];
    assert 0 in e.mgr.pending[..1];
    assert SyncEffect(e.mgr, f.mgr, 2);
  }

  lemma Extend(before: seq<seq<Shard>>, past: seq<Event>, e: Event, a: Shard, b: Shard) returns (run: seq<seq<Shard>>, events: seq<Event>)
    requires Calm(before, past) && before[|past|] == [a] && Next([a], e, [b]) && SparesAt([a], e, 0) && !Late(e, 0)
    ensures Calm(run, events) && run[|events|] == [b]
  {
    RunExtend(before, past, e, [b]);
    run, events := before + [[b]], past + [e];
  }
}
