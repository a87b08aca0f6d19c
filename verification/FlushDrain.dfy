/**
 What flush and drain wait for, and when the committer loop gets there.

 Both ask for everything claimed so far and are answered when every shard's completed mark has
 reached it; only a sync pass moves the marks.
 */
module FlushDrain {
  import opened Wrappers
  import opened Committer
  import opened CommitLoop

  function Claims(w: seq<Shard>): (targets: seq<nat>)
    ensures |targets| == |w| && forall s :: 0 <= s < |w| ==> targets[s] == w[s].claimed
  {
    seq(|w|, s requires 0 <= s < |w| => w[s].claimed)
  }

  ghost predicate PassAt(trigger: Trigger, run: seq<LoopState>, xs: seq<Weather>, k: nat)
    requires |run| == |xs| + 1 && k < |xs|
  {
    PassStep(trigger, run[k].w, run[k].current, xs[k], run[k + 1].w, run[k + 1].current)
  }

  /** Passes one after another, with nothing claimed or published in between. */
  ghost predicate Passes(trigger: Trigger, run: seq<LoopState>, xs: seq<Weather>)
  {
    && |run| == |xs| + 1 && run[0].current < |run[0].w| && Lined(run[0].w)
    && forall k :: 0 <= k < |xs| ==> PassAt(trigger, run, xs, k)
  }

  /** The completed marks, and that nothing more is done, of a loop that is stuck or has nothing to do. */
  ghost predicate Idle(trigger: Trigger, st: LoopState)
  {
    st.current < |st.w| && (AllDurable(st.w) || StuckAt(trigger, st.w, st.current))
  }

  ghost predicate SameMarks(w: seq<Shard>, w': seq<Shard>)
  {
    |w| == |w'| && forall s :: 0 <= s < |w| ==> w'[s] == w[s].(mgr := w'[s].mgr)
  }

  lemma IdleStep(trigger: Trigger, w: seq<Shard>, current: nat, x: Weather, w': seq<Shard>, next: nat)
    requires PassStep(trigger, w, current, x, w', next) && Idle(trigger, LoopState(w, current))
    ensures Idle(trigger, LoopState(w', next)) && SameMarks(w, w') && (AllDurable(w') <==> AllDurable(w)) && (Ready(w) ==> Ready(w'))
  {
    if !AllDurable(w) {
      var si: nat, mid :| Chosen(w, current, si, next) && Served(w, si, trigger, x, mid, w');
      ServedIdle(w, si, trigger, x, mid, w');
    }
  }

  /**
   Whatever the weather, a loop that is stuck, or that has nothing to write and nothing to sync,
   moves no completed mark in any number of passes.
   */
  lemma {:induction false} IdleForever(trigger: Trigger, run: seq<LoopState>, xs: seq<Weather>, k: nat)
    requires Passes(trigger, run, xs) && k < |run| && Idle(trigger, run[0])
    ensures Idle(trigger, run[k]) && SameMarks(run[0].w, run[k].w) && (AllDurable(run[k].w) <==> AllDurable(run[0].w))
  {
    if k > 0 {
      IdleForever(trigger, run, xs, k - 1);
      assert PassAt(trigger, run, xs, k - 1);
      IdleStep(trigger, run[k - 1].w, run[k - 1].current, xs[k - 1], run[k].w, run[k].current);
    }
  }

  /** Somebody waits for everything: a shutdown, or a flush up to all that is claimed. */
  predicate Wanted(x: Weather, w: seq<Shard>)
    requires Suits(x, w)
  {
    x.draining || (forall s :: 0 <= s < |w| ==> x.targets[s].Some? && x.targets[s].value >= w[s].claimed)
  }

  function ActiveRecords(sh: Shard): (records: seq<nat>)
    requires Fits(sh.mgr)
  {
    sh.mgr.segments[|sh.mgr.segments| - 1].records
  }

  /** Every sync succeeds, and the shard served gets its batch written, or its segment rolled when that holds something. */
  ghost predicate Fair(x: Weather, w: seq<Shard>, current: nat)
    requires current < |w| && Ready(w)
  {
    && Suits(x, w) && Wanted(x, w) && Reached(w, x.failAt, |w|)
    && (x.result.Wrote? || x.result == SegmentFull(true))
    && (x.result.SegmentFull? ==> forall si: nat, next: nat :: Chosen(w, current, si, next) && si < |w| ==> ActiveRecords(w[si]) != [])
  }

  /** What a shard still has to do: its records, and at most one roll before each. */
  function Load(sh: Shard): (n: nat)
    requires Fits(sh.mgr)
  {
    2 * Batch(sh) + if ActiveRecords(sh) != [] then 1 else 0
  }

  function Work(w: seq<Shard>): (n: nat)
    requires forall s :: 0 <= s < |w| ==> Fits(w[s].mgr)
  {
    if w == [] then 0 else Work(w[..|w| - 1]) + Load(w[|w| - 1])
  }

  lemma {:induction false} LessWork(w: seq<Shard>, w': seq<Shard>, si: nat)
    requires (forall s :: 0 <= s < |w| ==> Fits(w[s].mgr)) && (forall s :: 0 <= s < |w'| ==> Fits(w'[s].mgr))
    requires si < |w| == |w'| && Load(w'[si]) < Load(w[si])
    requires forall s :: 0 <= s < |w| ==> Load(w'[s]) <= Load(w[s])
    ensures Work(w') < Work(w)
  {
    var last := |w| - 1;
    if si < last {
      LessWork(w[..last], w'[..last], si);
    } else {
      NoMoreWork(w[..last], w'[..last]);
    }
  }

  lemma {:induction false} NoMoreWork(w: seq<Shard>, w': seq<Shard>)
    requires (forall s :: 0 <= s < |w| ==> Fits(w[s].mgr)) && (forall s :: 0 <= s < |w'| ==> Fits(w'[s].mgr))
    requires |w| == |w'| && forall s :: 0 <= s < |w| ==> Load(w'[s]) <= Load(w[s])
    ensures Work(w') <= Work(w)
  {
    if w != [] {
      NoMoreWork(w[..|w| - 1], w'[..|w| - 1]);
    }
  }

  lemma WantedDue(w: seq<Shard>, si: nat, trigger: Trigger, x: Weather)
    requires Suits(x, w) && Wanted(x, w) && Lined(w) && si < |w| && HasWork(w[si])
    ensures BatchDue(w, si, trigger, x) && SyncDue(w, si, trigger, x, true)
  {
    if !x.draining {
      assert x.targets[si].Some? && Short(w[si].committed, x.targets[si]) && Short(w[si].durable, x.targets[si]);
    }
  }

  /** What every step of a fair pass keeps: who claimed and published what, and that files fit. */
  ghost predicate SameInput(w: seq<Shard>, w': seq<Shard>)
  {
    |w| == |w'| && Ready(w') && forall s :: 0 <= s < |w| ==> w'[s].claimed == w[s].claimed && w'[s].avail == w[s].avail
  }

  /** Everything committed is durable and marked as completed. */
  ghost predicate AllMarked(w: seq<Shard>)
  {
    forall s :: 0 <= s < |w| ==> w[s].durable == w[s].committed <= w[s].completed
  }

  lemma SyncMarks(w: seq<Shard>, failAt: seq<nat>, w': seq<Shard>)
    requires Ready(w) && Next(w, SyncPass(failAt), w') && Reached(w, failAt, |w|)
    ensures SameInput(w, w') && AllMarked(w')
    ensures forall s :: 0 <= s < |w| ==> w'[s].committed == w[s].committed && Load(w'[s]) == Load(w[s])
  {
    forall s | 0 <= s < |w|
      ensures Fits(w'[s].mgr) && w'[s].durable == w'[s].committed == w[s].committed <= w'[s].completed
      ensures w'[s].claimed == w[s].claimed && w'[s].avail == w[s].avail && Load(w'[s]) == Load(w[s])
    {
      assert ShardSynced(w[s], w'[s], failAt[s], Reached(w, failAt, s), Reached(w, failAt, |w|));
    }
  }

  /** A batch is written and synced: less is left, and all that is committed is marked. */
  lemma FairWrite(w: seq<Shard>, si: nat, trigger: Trigger, x: Weather, mid: seq<Shard>, w': seq<Shard>)
    requires Ready(w) && Suits(x, w) && Wanted(x, w) && Reached(w, x.failAt, |w|) && x.result.Wrote? && Lined(w)
    requires Served(w, si, trigger, x, mid, w') && HasWork(w[si])
    ensures SameInput(w, w') && AllMarked(w') && Work(w') < Work(w)
  {
    WantedDue(w, si, trigger, x);
    WroteThenSynced(w, si, trigger, x, mid, w');
    assert Ready(mid) && Reached(mid, x.failAt, |mid|);
    SyncMarks(mid, x.failAt, w');
    LessAfterWrite(w, si, mid, w');
  }

  lemma LessAfterWrite(w: seq<Shard>, si: nat, mid: seq<Shard>, w': seq<Shard>)
    requires Ready(w) && Ready(mid) && Ready(w') && si < |w| == |mid| == |w'|
    requires HasWork(w[si]) && mid[si].avail == w[si].avail && w[si].committed < mid[si].committed
    requires forall s :: 0 <= s < |w| && s != si ==> mid[s] == w[s]
    requires forall s :: 0 <= s < |w| ==> Load(w'[s]) == Load(mid[s])
    ensures Work(w') < Work(w)
  {
    assert Batch(mid[si]) < Batch(w[si]);
    LessWork(w, w', si);
  }

  /** A roll: the segment that was full is replaced by an empty one. */
  lemma FairRoll(w: seq<Shard>, si: nat, trigger: Trigger, x: Weather, mid: seq<Shard>, w': seq<Shard>)
    requires Ready(w) && Suits(x, w) && Wanted(x, w) && x.result == SegmentFull(true) && Lined(w)
    requires Served(w, si, trigger, x, mid, w') && HasWork(w[si]) && ActiveRecords(w[si]) != []
    ensures SameInput(w, w') && HasWork(w'[si]) && Work(w') < Work(w)
  {
    WantedDue(w, si, trigger, x);
    assert Next(w, RollSegment(si), w');
    assert ActiveRecords(w'[si]) == [];
    LessWork(w, w', si);
  }

  /** Passes left in fair weather, one more for what is only to be synced. */
  function Rank(w: seq<Shard>): (n: nat)
    requires forall s :: 0 <= s < |w| ==> Fits(w[s].mgr)
  {
    Work(w) + if AllDurable(w) then 0 else 1
  }

  /** A fair pass over anything left to do brings the end nearer and does not get stuck; if it is the end, everything is marked. */
  lemma FairStep(trigger: Trigger, w: seq<Shard>, current: nat, x: Weather, w': seq<Shard>, next: nat)
    requires current < |w| && Ready(w) && Fair(x, w, current) && Lined(w)
    requires PassStep(trigger, w, current, x, w', next) && !Idle(trigger, LoopState(w, current))
    ensures SameInput(w, w') && Rank(w') < Rank(w)
    ensures !StuckAt(trigger, w', next) && (AllDurable(w') ==> AllMarked(w'))
  {
    var si: nat, mid :| Chosen(w, current, si, next) && Served(w, si, trigger, x, mid, w');
    if exists s :: 0 <= s < |w| && HasWork(w[s]) {
      if x.result.Wrote? {
        FairWrite(w, si, trigger, x, mid, w');
      } else {
        FairRoll(w, si, trigger, x, mid, w');
      }
    } else {
      assert OnlySyncLeft(w);
      FairSync(w, si, trigger, x, mid, w');
    }
  }

  lemma FairSync(w: seq<Shard>, si: nat, trigger: Trigger, x: Weather, mid: seq<Shard>, w': seq<Shard>)
    requires Ready(w) && Suits(x, w) && Wanted(x, w) && Reached(w, x.failAt, |w|) && Lined(w) && OnlySyncLeft(w)
    requires Served(w, si, trigger, x, mid, w') && (trigger.durability.AsyncMode? || Unsynced(w[si]))
    ensures SameInput(w, w') && AllMarked(w') && AllDurable(w') && Work(w') <= Work(w)
  {
    WantedSync(w, si, trigger, x);
    assert mid == w;
    SyncDone(w, x.failAt, w');
  }

  lemma SyncDone(w: seq<Shard>, failAt: seq<nat>, w': seq<Shard>)
    requires Ready(w) && Next(w, SyncPass(failAt), w') && Reached(w, failAt, |w|) && forall s :: 0 <= s < |w| ==> !HasWork(w[s])
    ensures SameInput(w, w') && AllMarked(w') && AllDurable(w') && Work(w') <= Work(w)
  {
    SyncMarks(w, failAt, w');
    NoMoreWork(w, w');
  }

  lemma WantedSync(w: seq<Shard>, si: nat, trigger: Trigger, x: Weather)
    requires Suits(x, w) && Wanted(x, w) && Lined(w) && OnlySyncLeft(w) && si < |w|
    requires trigger.durability.AsyncMode? || Unsynced(w[si])
    ensures BatchEvents(w, si, trigger, x) == [] && SyncEvents(w, si, trigger, x, w) == [SyncPass(x.failAt)]
  {
    var s :| 0 <= s < |w| && Unsynced(w[s]);
    assert w[s].committed > w[s].durable;
    assert SomethingBehind(w);
    assert x.draining || Short(w[s].durable, x.targets[s]);
  }

  ghost predicate FairAt(run: seq<LoopState>, xs: seq<Weather>, k: nat)
    requires |run| == |xs| + 1 && k < |xs|
  {
    run[k].current < |run[k].w| && Ready(run[k].w) && Fair(xs[k], run[k].w, run[k].current)
  }

  /** How far `k` fair passes from `w0`, with something to do and not stuck, have got. */
  ghost predicate Progress(trigger: Trigger, w0: seq<Shard>, st: LoopState, k: nat)
    requires Ready(w0)
  {
    && st.current < |st.w| && SameInput(w0, st.w) && Lined(st.w) && !StuckAt(trigger, st.w, st.current)
    && if AllDurable(st.w) then AllMarked(st.w) else Rank(st.w) + k <= Rank(w0)
  }

  lemma ProgressStep(trigger: Trigger, w0: seq<Shard>, st: LoopState, x: Weather, st': LoopState, k: nat)
    requires Ready(w0) && Progress(trigger, w0, st, k) && Fair(x, st.w, st.current)
    requires PassStep(trigger, st.w, st.current, x, st'.w, st'.current)
    ensures Progress(trigger, w0, st', k + 1)
  {
    PassLined(trigger, st.w, st.current, x, st'.w, st'.current);
    if AllDurable(st.w) {
      IdleStep(trigger, st.w, st.current, x, st'.w, st'.current);
    } else {
      FairStep(trigger, st.w, st.current, x, st'.w, st'.current);
    }
  }

  lemma ProgressStart(trigger: Trigger, st: LoopState)
    requires st.current < |st.w| && Ready(st.w) && Lined(st.w) && !Idle(trigger, st)
    ensures Progress(trigger, st.w, st, 0)
  {
  }

  lemma {:induction false} FairPasses(trigger: Trigger, run: seq<LoopState>, xs: seq<Weather>, k: nat)
    requires Passes(trigger, run, xs) && k < |run| && Ready(run[0].w) && !Idle(trigger, run[0])
    requires forall i :: 0 <= i < k ==> FairAt(run, xs, i)
    ensures Progress(trigger, run[0].w, run[k], k)
  {
    if k == 0 {
      ProgressStart(trigger, run[0]);
    } else {
      FairPasses(trigger, run, xs, k - 1);
      assert PassAt(trigger, run, xs, k - 1) && FairAt(run, xs, k - 1);
      ProgressStep(trigger, run[0].w, run[k - 1], xs[k - 1], run[k], k - 1);
    }
  }

  /**
   Enough fair passes, whatever else the weather brings and however often segments are rolled: a
   flush or drain up to everything claimed is answered if and only if the loop was not stuck, and had
   something to do or the marks were already there.  Everything is durable exactly if it was not stuck.
   */
  lemma FlushAnsweredIff(trigger: Trigger, run: seq<LoopState>, xs: seq<Weather>)
    requires Passes(trigger, run, xs) && Ready(run[0].w) && |xs| >= Rank(run[0].w)
    requires forall i :: 0 <= i < |xs| ==> FairAt(run, xs, i)
    requires forall s :: 0 <= s < |run[0].w| ==> run[0].w[s].avail == run[0].w[s].claimed
    ensures var w, end := run[0].w, run[|xs|].w;
            && (FlushDone(end, Claims(w)) <==> !StuckAt(trigger, w, run[0].current) && (!AllDurable(w) || FlushDone(w, Claims(w))))
            && (AllDurable(end) <==> !StuckAt(trigger, w, run[0].current))
  {
    var w, end := run[0].w, run[|xs|].w;
    if Idle(trigger, run[0]) {
      IdleForever(trigger, run, xs, |xs|);
      assert FlushDone(end, Claims(w)) <==> FlushDone(w, Claims(w));
      if StuckAt(trigger, w, run[0].current) {
        var s :| 0 <= s < |w| && Unsynced(w[s]);
        assert w[s].completed < Claims(w)[s];
      }
    } else {
      FairPasses(trigger, run, xs, |xs|);
      assert AllDurable(end);
    }
  }

  /** A record that does not fit a fresh segment: only rolls come of it, its shard never moves, and no flush up to it is answered. */
  lemma {:induction false} OversizedNeverCommitted(trigger: Trigger, run: seq<LoopState>, xs: seq<Weather>, k: nat, s: nat)
    requires Passes(trigger, run, xs) && k < |run| && s < |run[0].w| && HasWork(run[0].w[s])
    requires forall i :: 0 <= i < |xs| ==> xs[i].result.SegmentFull?
    ensures s < |run[k].w| && run[k].w[s].committed == run[0].w[s].committed && run[k].w[s].avail == run[0].w[s].avail
    ensures Lined(run[k].w) && run[k].w[s].completed < run[0].w[s].claimed
  {
    if k > 0 {
      OversizedNeverCommitted(trigger, run, xs, k - 1, s);
      assert PassAt(trigger, run, xs, k - 1);
      var st, st' := run[k - 1], run[k];
      PassLined(trigger, st.w, st.current, xs[k - 1], st'.w, st'.current);
      FullKeepsCommitted(trigger, st.w, st.current, xs[k - 1], st'.w, st'.current, s);
    }
  }

  lemma FullKeepsCommitted(trigger: Trigger, w: seq<Shard>, current: nat, x: Weather, w': seq<Shard>, next: nat, s: nat)
    requires PassStep(trigger, w, current, x, w', next) && s < |w| && x.result.SegmentFull?
    ensures w'[s].committed == w[s].committed && w'[s].avail == w[s].avail
  {
    if !AllDurable(w) {
      var si: nat, mid :| Chosen(w, current, si, next) && Served(w, si, trigger, x, mid, w');
      OnlyRolls(w, si, trigger, x);
      NoWrites(w, si, trigger, x, mid);
      OtherKeepsCommitted(w, BatchEvents(w, si, trigger, x), mid, s);
      OtherKeepsCommitted(mid, SyncEvents(w, si, trigger, x, mid), w', s);
    }
  }

  predicate Writes(e: Event)
  {
    e.Commit? || e.FailAfterWrite? || e.Claim? || e.Publish?
  }

  lemma OnlyRolls(w: seq<Shard>, si: nat, trigger: Trigger, x: Weather)
    requires Suits(x, w) && si < |w| && x.result.SegmentFull?
    ensures forall e :: e in BatchEvents(w, si, trigger, x) ==> !Writes(e)
  {
  }

  lemma NoWrites(w: seq<Shard>, si: nat, trigger: Trigger, x: Weather, mid: seq<Shard>)
    requires Suits(x, w) && si < |w| == |mid|
    ensures forall e :: e in SyncEvents(w, si, trigger, x, mid) ==> !Writes(e)
  {
  }

  lemma OtherKeepsCommitted(w: seq<Shard>, events: seq<Event>, w': seq<Shard>, s: nat)
    requires Maybe(w, events, w') && s < |w| && forall e :: e in events ==> !Writes(e)
    ensures |w'| == |w| && w'[s].committed == w[s].committed && w'[s].avail == w[s].avail
  {
    if events != [] {
      assert events[0] in events;
      if events[0].SyncPass? {
        SyncPassCursors(w, events[0].failAt, w');
      }
    }
  }

  /** Always possible: everything succeeds and a shutdown waits. */
  function FairWeather(w: seq<Shard>): (x: Weather)
    ensures Suits(x, w)
    ensures Ready(w) ==> forall c :: 0 <= c < |w| ==> Fair(x, w, c)
  {
    var n := |w|;
    Weather(false, seq(n, i => None), true, 0, Wrote(0, false), seq(n, i requires 0 <= i < n => |w[i].mgr.pending| + 1), seq(n, i => {}))
  }

  /** Step `i` was a pass over `n` shards in the weather of that moment. */
  ghost predicate RanAt(run: seq<LoopState>, xs: seq<Weather>, i: nat, n: nat, env: (nat, seq<Shard>, nat) -> Weather)
    requires |run| == |xs| + 1 && i < |xs|
  {
    && run[i].current < |run[i].w| == n && Ready(run[i].w) && xs[i] == env(i, run[i].w, run[i].current)
  }

  lemma MorePasses(trigger: Trigger, run: seq<LoopState>, xs: seq<Weather>, x: Weather, st: LoopState)
    requires Passes(trigger, run, xs) && PassStep(trigger, run[|xs|].w, run[|xs|].current, x, st.w, st.current)
    ensures Passes(trigger, run + [st], xs + [x])
  {
    var run', xs' := run + [st], xs + [x];
    forall k | 0 <= k < |xs'|
      ensures PassAt(trigger, run', xs', k)
    {
      if k < |xs| {
        assert PassAt(trigger, run, xs, k);
      } else {
        assert run'[k] == run[|xs|] && run'[k + 1] == st && xs'[k] == x;
      }
    }
  }

  lemma MoreRan(run: seq<LoopState>, xs: seq<Weather>, n: nat, env: (nat, seq<Shard>, nat) -> Weather, x: Weather, st: LoopState)
    requires |run| == |xs| + 1 && (forall j :: 0 <= j < |xs| ==> RanAt(run, xs, j, n, env))
    requires var last := run[|xs|]; last.current < |last.w| == n && Ready(last.w) && x == env(|xs|, last.w, last.current)
    ensures forall j :: 0 <= j < |xs| + 1 ==> RanAt(run + [st], xs + [x], j, n, env)
  {
    forall j | 0 <= j < |xs| + 1
      ensures RanAt(run + [st], xs + [x], j, n, env)
    {
      assert j < |xs| ==> RanAt(run, xs, j, n, env);
    }
  }

  /** `n` passes in weather that may depend on how far the loop has got. */
  method RunPasses(loop: CommitterLoop, n: nat, env: (nat, seq<Shard>, nat) -> Weather)
    returns (ghost run: seq<LoopState>, ghost xs: seq<Weather>)
    requires loop.Valid() && Lined(loop.shards) && forall i: nat, w, c: nat :: |w| == |loop.shards| ==> Suits(env(i, w, c), w)
    modifies loop
    ensures loop.Valid() && |xs| == n && Passes(loop.trigger, run, xs)
    ensures run[0] == old(LoopState(loop.shards, loop.currentShard)) && run[n] == LoopState(loop.shards, loop.currentShard)
    ensures forall i :: 0 <= i < n ==> RanAt(run, xs, i, |old(loop.shards)|, env)
  {
    run, xs := [LoopState(loop.shards, loop.currentShard)], [];
    for i := 0 to n
      invariant loop.Valid() && |loop.shards| == |old(loop.shards)| && |xs| == i && Passes(loop.trigger, run, xs)
      invariant run[0] == old(LoopState(loop.shards, loop.currentShard)) && run[i] == LoopState(loop.shards, loop.currentShard)
      invariant forall j :: 0 <= j < i ==> RanAt(run, xs, j, |old(loop.shards)|, env)
    {
      var x := env(i, loop.shards, loop.currentShard);
      assert Suits(x, loop.shards);
      var stop, si, mid := loop.Pass(x);
      ghost var st := LoopState(loop.shards, loop.currentShard);
      MorePasses(loop.trigger, run, xs, x, st);
      MoreRan(run, xs, |old(loop.shards)|, env, x, st);
      run, xs := run + [st], xs + [x];
    }
  }

  /** Enough passes in any fair weather. */
  method DrainFairly(loop: CommitterLoop, n: nat, env: (nat, seq<Shard>, nat) -> Weather)
    requires loop.Valid() && Lined(loop.shards) && n >= Rank(loop.shards)
    requires forall i: nat, w, c: nat :: |w| == |loop.shards| ==> Suits(env(i, w, c), w)
    requires forall i: nat, w, c: nat :: |w| == |loop.shards| && c < |w| && Ready(w) ==> Fair(env(i, w, c), w, c)
    requires forall s :: 0 <= s < |loop.shards| ==> loop.shards[s].avail == loop.shards[s].claimed
    modifies loop
    ensures loop.Valid() && (AllDurable(loop.shards) <==> !old(loop.Stuck()))
    ensures FlushDone(loop.shards, Claims(old(loop.shards))) <==>
            !old(loop.Stuck()) && (!AllDurable(old(loop.shards)) || FlushDone(old(loop.shards), Claims(old(loop.shards))))
  {
    ghost var run, xs := RunPasses(loop, n, env);
    forall i | 0 <= i < n
      ensures FairAt(run, xs, i)
    {
      assert RanAt(run, xs, i, |old(loop.shards)|, env);
    }
    FlushAnsweredIff(loop.trigger, run, xs);
  }

  /** A shutdown in which everything succeeds. */
  method CalmDrain(loop: CommitterLoop)
    requires loop.Valid() && Lined(loop.shards)
    requires forall s :: 0 <= s < |loop.shards| ==> loop.shards[s].avail == loop.shards[s].claimed
    modifies loop
    ensures loop.Valid() && (AllDurable(loop.shards) <==> !old(loop.Stuck()))
  {
    DrainFairly(loop, Rank(loop.shards), (i, w, c) => FairWeather(w));
  }

  /** A log of five records reopened and flushed at once: it is not stuck and everything is durable, yet no pass answers the flush. */
  method ReopenedFlushHangs(trigger: Trigger, n: nat, env: (nat, seq<Shard>, nat) -> Weather) returns (loop: CommitterLoop)
    requires forall i: nat, w, c: nat :: |w| == 1 ==> Suits(env(i, w, c), w)
    ensures loop.Valid() && !loop.Stuck() && AllDurable(loop.shards) && !FlushDone(loop.shards, [5])
  {
    var sh := Shard(0, 5, 5, 5, 5, 5, 0, Manager([Segment(0, Range(0, 5), 0)], [], None));
    assert Opened(sh);
    loop := new CommitterLoop(trigger, [sh]);
    ghost var run, xs := RunPasses(loop, n, env);
    IdleForever(trigger, run, xs, n);
    assert loop.shards[0].completed == 0;
  }
}
