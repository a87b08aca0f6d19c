/**
 The committer loop: which shard is served, what is written, when everything is synced.

 Each pass takes at most two steps of the machine in `Committer`.
 */
module CommitLoop {
  import opened Arith
  import opened Wrappers
  import opened Committer

  datatype Durability = SyncMode | BatchMode | AsyncMode
  datatype Trigger = Trigger(bytes: nat, records: nat, durability: Durability)

  /** What `append_batch` (and, after a full segment, `roll`) came back with. */
  datatype BatchResult = Wrote(last: nat, prepares: bool) | WroteThenFailed(last: nat) | SegmentFull(rolled: bool) | NotWritten

  /** Last sequence of the next batch: bounded by the write buffer and by what is available. */
  function ChooseBatchEnd(committed: nat, avail: nat, bufCapacity: nat): (last: nat)
    requires committed < avail
    ensures committed <= last < avail
    ensures last == avail - 1 || last - committed == Max(bufCapacity / 300, 64)
  {
    Min(committed + Max(bufCapacity / 300, 64), avail - 1)
  }

  function Sum(sizes: seq<nat>): (n: nat)
  {
    if sizes == [] then 0 else Sum(sizes[..|sizes| - 1]) + sizes[|sizes| - 1]
  }

  /**
   How many records of a batch go into a segment filled up to `offset`: the longest prefix that fits.
   If not even the first does, the segment is reported full, a fresh one not excepted.
   */
  method FillSegment(offset: nat, sizes: seq<nat>, segmentSize: nat) returns (count: nat, full: bool)
    requires sizes != []
    ensures full <==> offset + sizes[0] > segmentSize
    ensures full ==> count == 0
    ensures !full ==> 0 < count <= |sizes| && offset + Sum(sizes[..count]) <= segmentSize
    ensures !full && count < |sizes| ==> offset + Sum(sizes[..count]) + sizes[count] > segmentSize
  {
    var pos := 0;
    for i := 0 to |sizes|
      invariant pos == Sum(sizes[..i]) && (i > 0 ==> offset + pos <= segmentSize)
      invariant i > 0 ==> offset + sizes[0] <= segmentSize
    {
      if offset + pos + sizes[i] > segmentSize {
        return i, i == 0;
      }
      assert sizes[..i + 1][..i] == sizes[..i];
      pos := pos + sizes[i];
    }
    assert sizes[..|sizes|] == sizes;
    return |sizes|, false;
  }

  predicate HasWork(sh: Shard)
  {
    sh.avail > sh.committed
  }

  predicate Unsynced(sh: Shard)
  {
    sh.committed > sh.durable
  }

  datatype Pick = Nobody | Pick(s: nat)

  /** `k` places after `current`, cyclically. */
  function Wrap(current: nat, k: nat, n: nat): (s: nat)
    requires current < n && k <= n
    ensures s < n
  {
    if current + k < n then current + k else current + k - n
  }

  /** The source's modular increment. */
  lemma WrapNext(current: nat, k: nat, n: nat)
    requires current < n && k < n
    ensures (Wrap(current, k, n) + 1) % n == Wrap(current, k + 1, n) == Wrap(Wrap(current, k, n), 1, n)
  {
  }

  /** Every position is reached within one turn. */
  lemma WrapCovers(current: nat, s: nat, n: nat) returns (k: nat)
    requires current < n && s < n
    ensures k < n && Wrap(current, k, n) == s
  {
    k := if current <= s then s - current else s + n - current;
  }

  /** Shard `s` is `k` places on, and nobody before it has work. */
  ghost predicate FirstWithWork(w: seq<Shard>, current: nat, k: nat, s: nat)
    requires current < |w|
  {
    k < |w| && s == Wrap(current, k, |w|) && forall d :: 0 <= d < k ==> !HasWork(w[Wrap(current, d, |w|)])
  }

  /** Round robin: the first shard with work at or after `current`; the turn then passes to its successor. */
  method ChooseShard(w: seq<Shard>, current: nat) returns (pick: Pick, next: nat)
    requires current < |w|
    ensures next < |w|
    ensures pick.Nobody? ==> next == current && forall s :: 0 <= s < |w| ==> !HasWork(w[s])
    ensures pick.Pick? ==> pick.s < |w| && HasWork(w[pick.s]) && next == Wrap(pick.s, 1, |w|)
    ensures pick.Pick? ==> exists k :: FirstWithWork(w, current, k, pick.s)
  {
    var n := |w|;
    next := current;
    for k := 0 to n
      invariant next == Wrap(current, k, n)
      invariant forall d :: 0 <= d < k ==> !HasWork(w[Wrap(current, d, n)])
    {
      var si := next;
      WrapNext(current, k, n);
      next := (next + 1) % n;
      if HasWork(w[si]) {
        assert FirstWithWork(w, current, k, si);
        return Pick(si), next;
      }
    }
    forall s | 0 <= s < n
      ensures !HasWork(w[s])
    {
      var k := WrapCovers(current, s, n);
    }
    pick := Nobody;
  }

  ghost predicate Ready(w: seq<Shard>)
  {
    w != [] && forall s :: 0 <= s < |w| ==> Fits(w[s].mgr)
  }

  lemma StopsAt(w: seq<Shard>, failAt: seq<nat>, s: nat, t: nat)
    requires |failAt| == |w| && s < t <= |w| && failAt[s] <= |w[s].mgr.pending|
    ensures !Reached(w, failAt, t)
  {
  }

  /** The files of shards below `s` have been synced, nothing else has changed. */
  ghost predicate SyncedTo(w: seq<Shard>, failAt: seq<nat>, s: nat, files: seq<Shard>)
    requires Ready(w) && |failAt| == |w|
  {
    && |files| == |w| && s <= |w|
    && (forall t :: 0 <= t < s ==> SyncEffect(w[t].mgr, files[t].mgr, failAt[t]) && files[t] == w[t].(mgr := files[t].mgr))
    && (forall t :: s <= t < |w| ==> files[t] == w[t])
  }

  lemma FailedPass(w: seq<Shard>, failAt: seq<nat>, s: nat, files: seq<Shard>)
    requires Ready(w) && |failAt| == |w| && s < |w| && Reached(w, failAt, s) && failAt[s] <= |w[s].mgr.pending|
    requires SyncedTo(w, failAt, s + 1, files)
    ensures !Reached(w, failAt, |w|) && Next(w, SyncPass(failAt), files) && Ready(files)
  {
    StopsAt(w, failAt, s, |w|);
    forall t | 0 <= t < |w|
      ensures ShardSynced(w[t], files[t], failAt[t], Reached(w, failAt, t), false)
    {
      if s < t {
        StopsAt(w, failAt, s, t);
      }
    }
  }

  method AdvanceCursors(files: seq<Shard>) returns (w': seq<Shard>)
    ensures |w'| == |files|
    ensures forall t :: 0 <= t < |files| ==>
                          w'[t] == files[t].(durable := files[t].committed, completed := Max(files[t].completed, files[t].committed))
  {
    w' := [];
    for s := 0 to |files|
      invariant |w'| == s
      invariant forall t :: 0 <= t < s ==>
                              w'[t] == files[t].(durable := files[t].committed, completed := Max(files[t].completed, files[t].committed))
    {
      w' := w' + [files[s].(durable := files[s].committed, completed := Max(files[s].completed, files[s].committed))];
    }
  }

  /** Syncs every shard's files in order; only if all succeed are all durable cursors advanced. */
  method SyncShards(w: seq<Shard>, failAt: seq<nat>) returns (w': seq<Shard>, ok: bool)
    requires Ready(w) && |failAt| == |w|
    ensures ok <==> Reached(w, failAt, |w|)
    ensures Next(w, SyncPass(failAt), w') && Ready(w')
  {
    var files := w;
    for s := 0 to |w|
      invariant Reached(w, failAt, s) && SyncedTo(w, failAt, s, files)
    {
      var m, done := SyncAll(files[s].mgr, failAt[s]);
      files := files[s := files[s].(mgr := m)];
      if !done {
        FailedPass(w, failAt, s, files);
        return files, false;
      }
    }
    w' := AdvanceCursors(files);
    AllSynced(w, failAt, files, w');
    ok := true;
  }

  lemma AllSynced(w: seq<Shard>, failAt: seq<nat>, files: seq<Shard>, w': seq<Shard>)
    requires Ready(w) && |failAt| == |w| == |w'| && Reached(w, failAt, |w|) && SyncedTo(w, failAt, |w|, files)
    requires forall t :: 0 <= t < |files| ==>
                           w'[t] == files[t].(durable := files[t].committed, completed := Max(files[t].completed, files[t].committed))
    ensures Next(w, SyncPass(failAt), w') && Ready(w')
  {
    forall t | 0 <= t < |w|
      ensures ShardSynced(w[t], w'[t], failAt[t], Reached(w, failAt, t), Reached(w, failAt, |w|))
    {
      assert files[t] == w[t].(mgr := files[t].mgr);
    }
  }

  method DrainShards(w: seq<Shard>, fails: seq<set<nat>>) returns (w': seq<Shard>)
    requires Ready(w) && |fails| == |w|
    ensures Next(w, Drain(fails), w') && Ready(w')
  {
    w' := w;
    for s := 0 to |w|
      invariant |w'| == |w|
      invariant forall t :: 0 <= t < s ==> DrainEffect(w[t].mgr, w'[t].mgr, fails[t]) && w'[t] == w[t].(mgr := w'[t].mgr)
      invariant forall t :: s <= t < |w| ==> w'[t] == w[t]
    {
      var m := DrainPending(w'[s].mgr, fails[s]);
      w' := w'[s := w'[s].(mgr := m)];
    }
  }

  /** The states and events of one pass through the loop. */
  ghost predicate Path(states: seq<seq<Shard>>, events: seq<Event>, from: seq<Shard>, to: seq<Shard>)
  {
    && |states| == |events| + 1 && states[0] == from && states[|events|] == to
    && forall k :: 0 <= k < |events| ==> Next(states[k], events[k], states[k + 1])
  }

  /** Last record a batch that reports `l` has written. */
  function LastWritten(sh: Shard, bufCapacity: nat, l: nat): (last: nat)
    requires HasWork(sh)
    ensures sh.committed <= last < sh.avail
  {
    Max(sh.committed, Min(l, ChooseBatchEnd(sh.committed, sh.avail, bufCapacity)))
  }

  /** The step an attempt to write a batch of shard `si` takes, if any. */
  function Attempt(sh: Shard, si: nat, bufCapacity: nat, result: BatchResult): (events: seq<Event>)
    requires HasWork(sh)
  {
    match result
    case Wrote(l, prepares) => [Commit(si, LastWritten(sh, bufCapacity, l), prepares)]
    case WroteThenFailed(l) => [FailAfterWrite(si, LastWritten(sh, bufCapacity, l))]
    case SegmentFull(rolled) => if rolled then [RollSegment(si)] else []
    case NotWritten => []
  }

  /** Commits one batch of shard `si`, or rolls its segment. */
  method CommitBatch(w: seq<Shard>, si: nat, bufCapacity: nat, result: BatchResult) returns (w': seq<Shard>)
    requires Ready(w) && si < |w| && HasWork(w[si])
    ensures Ready(w') && |w'| == |w| && Maybe(w, Attempt(w[si], si, bufCapacity, result), w')
  {
    var sh := w[si];
    match result
    case Wrote(l, prepares) =>
      var last := LastWritten(sh, bufCapacity, l);
      w' := w[si := sh.(mgr := Prepare(Append(sh.mgr, sh.committed, last + 1), last + 1, prepares), committed := last + 1)];
    case WroteThenFailed(l) =>
      var last := LastWritten(sh, bufCapacity, l);
      w' := w[si := sh.(mgr := Append(sh.mgr, sh.committed, last + 1))];
    case SegmentFull(rolled) =>
      w' := if rolled then w[si := sh.(mgr := Roll(sh.mgr, sh.committed))] else w;
    case NotWritten =>
      w' := w;
  }

  /** Outcomes the environment decides during one pass; `targets` are the flush requests on record. */
  datatype Weather = Weather(
    timeDue: bool, targets: seq<Option<nat>>, draining: bool,
    bufCapacity: nat, result: BatchResult, failAt: seq<nat>, fails: seq<set<nat>>)

  predicate Suits(x: Weather, w: seq<Shard>)
  {
    |x.targets| == |x.failAt| == |x.fails| == |w|
  }

  predicate FlushPending(x: Weather)
  {
    exists s :: 0 <= s < |x.targets| && x.targets[s].Some?
  }

  /** A shard without a request counts as short while another has one. */
  predicate Short(cursor: nat, target: Option<nat>)
  {
    target.None? || cursor < target.value
  }

  predicate CommitForFlush(w: seq<Shard>, x: Weather)
    requires Suits(x, w)
  {
    FlushPending(x) && exists s :: 0 <= s < |w| && Short(w[s].committed, x.targets[s])
  }

  predicate SyncForFlush(w: seq<Shard>, x: Weather)
    requires Suits(x, w)
  {
    FlushPending(x) && exists s :: 0 <= s < |w| && Short(w[s].durable, x.targets[s])
  }

  function Batch(sh: Shard): (n: nat)
  {
    if HasWork(sh) then sh.avail - sh.committed else 0
  }

  predicate BatchDue(w: seq<Shard>, si: nat, trigger: Trigger, x: Weather)
    requires Suits(x, w) && si < |w|
  {
    && HasWork(w[si])
    && (Batch(w[si]) * 256 >= trigger.bytes || Batch(w[si]) >= trigger.records || x.timeDue || CommitForFlush(w, x) || x.draining)
  }

  predicate SyncDue(w: seq<Shard>, si: nat, trigger: Trigger, x: Weather, unsynced: bool)
    requires Suits(x, w) && si < |w|
  {
    if trigger.durability.SyncMode? then
      unsynced
    else if trigger.durability.BatchMode? then
      unsynced && (x.timeDue || Batch(w[si]) * 256 >= trigger.bytes || SyncForFlush(w, x) || x.draining)
    else
      SyncForFlush(w, x) || x.draining
  }

  /** No event, or one event, leads from `w` to `w'`. */
  ghost predicate Maybe(w: seq<Shard>, events: seq<Event>, w': seq<Shard>)
  {
    || (events == [] && w' == w)
    || (|events| == 1 && Next(w, events[0], w'))
  }

  lemma Join(a: seq<Shard>, first: seq<Event>, b: seq<Shard>, second: seq<Event>, c: seq<Shard>)
    returns (states: seq<seq<Shard>>)
    requires Maybe(a, first, b) && Maybe(b, second, c)
    ensures Path(states, first + second, a, c)
  {
    states := if first == [] then (if second == [] then [a] else [a, c])
    else if second == [] then [a, b] else [a, b, c];
  }

  /** Nothing waits to be written, yet some shard waits to be synced. */
  predicate OnlySyncLeft(w: seq<Shard>)
  {
    (forall s :: 0 <= s < |w| ==> !HasWork(w[s])) && (exists s :: 0 <= s < |w| && Unsynced(w[s]))
  }

  predicate AllDurable(w: seq<Shard>)
  {
    forall s :: 0 <= s < |w| ==> !HasWork(w[s]) && !Unsynced(w[s])
  }

  /** The first half of serving shard `si`: write a batch when one is due. */
  function BatchEvents(w: seq<Shard>, si: nat, trigger: Trigger, x: Weather): (events: seq<Event>)
    requires Suits(x, w) && si < |w|
  {
    if BatchDue(w, si, trigger, x) then Attempt(w[si], si, x.bufCapacity, x.result) else []
  }

  /** The second half is reached unless a due batch was not written. */
  predicate GoesOn(w: seq<Shard>, si: nat, trigger: Trigger, x: Weather)
    requires Suits(x, w) && si < |w|
  {
    BatchDue(w, si, trigger, x) ==> x.result.Wrote?
  }

  predicate SomethingBehind(w: seq<Shard>)
  {
    exists a, b :: 0 <= a < |w| && 0 <= b < |w| && w[a].committed > w[b].durable
  }

  /** The second half, from the state `mid` the first one left: sync when due, drain when there was nothing to do. */
  function SyncEvents(w: seq<Shard>, si: nat, trigger: Trigger, x: Weather, mid: seq<Shard>): (events: seq<Event>)
    requires Suits(x, w) && si < |w| == |mid|
  {
    if !GoesOn(w, si, trigger, x) then []
    else if SyncDue(w, si, trigger, x, Unsynced(mid[si])) then
      if SomethingBehind(mid) then [SyncPass(x.failAt)] else []
    else if BatchDue(w, si, trigger, x) then []
    else [Drain(x.fails)]
  }

  /** Shard `si` is served: `mid` is the state between writing and syncing. */
  ghost predicate Served(w: seq<Shard>, si: nat, trigger: Trigger, x: Weather, mid: seq<Shard>, w': seq<Shard>)
    requires Suits(x, w)
  {
    && si < |w| == |mid| == |w'|
    && Maybe(w, BatchEvents(w, si, trigger, x), mid)
    && Maybe(mid, SyncEvents(w, si, trigger, x, mid), w')
  }

  method Serve(w: seq<Shard>, si: nat, trigger: Trigger, x: Weather) returns (mid: seq<Shard>, w': seq<Shard>)
    requires Ready(w) && si < |w| && Suits(x, w)
    ensures Ready(w') && Served(w, si, trigger, x, mid, w')
  {
    var due := BatchDue(w, si, trigger, x);
    mid := w;
    if due {
      mid := CommitBatch(w, si, x.bufCapacity, x.result);
      if !x.result.Wrote? {
        return mid, mid;
      }
    }
    w' := mid;
    if SyncDue(w, si, trigger, x, Unsynced(mid[si])) {
      if SomethingBehind(mid) {
        var ok;
        w', ok := SyncShards(mid, x.failAt);
      }
    } else if !due {
      w' := DrainShards(mid, x.fails);
    }
  }

  /** Which shard a pass serves, and whose turn is next. */
  ghost predicate Chosen(w: seq<Shard>, current: nat, si: nat, next: nat)
    requires current < |w|
  {
    if exists s :: 0 <= s < |w| && HasWork(w[s]) then
      si < |w| && HasWork(w[si]) && next == Wrap(si, 1, |w|) && exists k :: FirstWithWork(w, current, k, si)
    else
      si == next == current
  }

  /** With only syncing left, the shard served decides: nothing to sync there means nothing is synced anywhere. */
  lemma ServedIdle(w: seq<Shard>, si: nat, trigger: Trigger, x: Weather, mid: seq<Shard>, w': seq<Shard>)
    requires Suits(x, w) && Served(w, si, trigger, x, mid, w') && OnlySyncLeft(w)
    requires !trigger.durability.AsyncMode? && !Unsynced(w[si])
    ensures mid == w && Next(w, Drain(x.fails), w') && OnlySyncLeft(w') && !Unsynced(w'[si]) && !AllDurable(w')
  {
    var s :| 0 <= s < |w| && Unsynced(w[s]);
    assert Unsynced(w'[s]);
  }

  lemma ServedSync(w: seq<Shard>, si: nat, trigger: Trigger, x: Weather, mid: seq<Shard>, w': seq<Shard>)
    requires Suits(x, w) && Served(w, si, trigger, x, mid, w') && OnlySyncLeft(w)
    requires trigger.durability.AsyncMode? || Unsynced(w[si])
    requires (SyncForFlush(w, x) || x.draining) && Reached(w, x.failAt, |w|)
    ensures AllDurable(w')
  {
    var s :| 0 <= s < |w| && Unsynced(w[s]);
    assert w[s].committed > w[s].durable;
    assert SomethingBehind(w);
    SyncPassCursors(w, x.failAt, w');
  }

  /** A sync pass moves every durable cursor to the committed one, or no cursor at all. */
  lemma SyncPassCursors(w: seq<Shard>, failAt: seq<nat>, w': seq<Shard>)
    requires Next(w, SyncPass(failAt), w')
    ensures forall s :: 0 <= s < |w| ==>
                          && w'[s].avail == w[s].avail && w'[s].committed == w[s].committed
                          && w'[s].durable == if Reached(w, failAt, |w|) then w[s].committed else w[s].durable
  {
  }

  /** A served shard is at most two steps of the machine. */
  lemma ServedIsPath(w: seq<Shard>, si: nat, trigger: Trigger, x: Weather, mid: seq<Shard>, w': seq<Shard>) returns (states: seq<seq<Shard>>)
    requires Suits(x, w) && Served(w, si, trigger, x, mid, w')
    ensures Path(states, BatchEvents(w, si, trigger, x) + SyncEvents(w, si, trigger, x, mid), w, w')
  {
    states := Join(w, BatchEvents(w, si, trigger, x), mid, SyncEvents(w, si, trigger, x, mid), w');
  }

  predicate Ordered(w: seq<Shard>)
  {
    forall s :: 0 <= s < |w| ==> w[s].durable <= w[s].committed
  }

  /** A trigger whose record count is worth its bytes, as the one the engine builds: 256 KiB or 1024 records. */
  predicate Matched(trigger: Trigger)
  {
    trigger.bytes <= trigger.records * 256
  }

  /** Outside async mode, what makes a batch due makes its sync due in the same pass. */
  lemma SyncFollowsCommit(w: seq<Shard>, si: nat, trigger: Trigger, x: Weather)
    requires Suits(x, w) && si < |w| && Ordered(w) && Matched(trigger) && BatchDue(w, si, trigger, x)
    requires !trigger.durability.AsyncMode? || x.draining
    ensures SyncDue(w, si, trigger, x, true)
  {
    if CommitForFlush(w, x) {
      var s :| 0 <= s < |w| && Short(w[s].committed, x.targets[s]);
      assert Short(w[s].durable, x.targets[s]);
    }
  }

  lemma WroteThenSynced(w: seq<Shard>, si: nat, trigger: Trigger, x: Weather, mid: seq<Shard>, w': seq<Shard>)
    requires Suits(x, w) && Served(w, si, trigger, x, mid, w') && Ordered(w)
    requires BatchDue(w, si, trigger, x) && x.result.Wrote? && SyncDue(w, si, trigger, x, true)
    ensures Next(w, BatchEvents(w, si, trigger, x)[0], mid) && Next(mid, SyncPass(x.failAt), w')
    ensures mid[si] == w[si].(mgr := mid[si].mgr, committed := LastWritten(w[si], x.bufCapacity, x.result.last) + 1)
    ensures mid[si].mgr.pending == w[si].mgr.pending && forall s :: 0 <= s < |w| && s != si ==> mid[s] == w[s]
  {
    assert mid[si].committed > mid[si].durable;
    assert SomethingBehind(mid);
  }

  // ── Getting stuck ──────────────────────────────────────────────────────────

  /**
   Serving shard `si` with the turn passing to `next` strands the loop: the batch takes the last of
   the work, the sync fails, and the shard whose turn comes has nothing of its own to sync.
   */
  predicate Strands(w: seq<Shard>, si: nat, next: nat, trigger: Trigger, x: Weather)
  {
    && Suits(x, w) && si < |w| && next < |w| && next != si && !Unsynced(w[next])
    && BatchDue(w, si, trigger, x) && x.result.Wrote? && LastWritten(w[si], x.bufCapacity, x.result.last) + 1 == w[si].avail
    && (forall s :: 0 <= s < |w| && s != si ==> !HasWork(w[s]))
    && !Reached(w, x.failAt, |w|)
  }

  /** A pass that serves work leaves the loop stuck exactly when it strands it. */
  lemma EntersStuckIff(w: seq<Shard>, si: nat, trigger: Trigger, x: Weather, mid: seq<Shard>, w': seq<Shard>, next: nat)
    requires Suits(x, w) && Served(w, si, trigger, x, mid, w') && HasWork(w[si]) && next < |w|
    requires Ordered(w) && Matched(trigger) && !trigger.durability.AsyncMode?
    ensures OnlySyncLeft(w') && !Unsynced(w'[next]) <==> Strands(w, si, next, trigger, x)
  {
    if BatchDue(w, si, trigger, x) && x.result.Wrote? {
      SyncFollowsCommit(w, si, trigger, x);
      WroteThenSynced(w, si, trigger, x, mid, w');
      StuckAfterSync(mid, si, x.failAt, w', next);
      StrandsFrom(w, si, next, trigger, x, mid);
    } else {
      StillWork(w, si, trigger, x, mid, w');
    }
  }

  lemma StrandsFrom(w: seq<Shard>, si: nat, next: nat, trigger: Trigger, x: Weather, mid: seq<Shard>)
    requires Suits(x, w) && si < |w| == |mid| && next < |w| && BatchDue(w, si, trigger, x) && x.result.Wrote? && Ordered(w)
    requires mid[si] == w[si].(mgr := mid[si].mgr, committed := LastWritten(w[si], x.bufCapacity, x.result.last) + 1)
    requires mid[si].mgr.pending == w[si].mgr.pending && forall s :: 0 <= s < |w| && s != si ==> mid[s] == w[s]
    ensures Strands(w, si, next, trigger, x) <==>
            (forall s :: 0 <= s < |mid| ==> !HasWork(mid[s])) && !Reached(mid, x.failAt, |mid|) && !Unsynced(mid[next])
  {
    assert Reached(mid, x.failAt, |mid|) <==> Reached(w, x.failAt, |w|);
    assert HasWork(mid[si]) <==> LastWritten(w[si], x.bufCapacity, x.result.last) + 1 != w[si].avail;
    assert (forall s :: 0 <= s < |mid| ==> !HasWork(mid[s])) <==>
           !HasWork(mid[si]) && forall s :: 0 <= s < |w| && s != si ==> !HasWork(w[s]);
  }

  lemma StuckAfterSync(mid: seq<Shard>, si: nat, failAt: seq<nat>, w': seq<Shard>, next: nat)
    requires Next(mid, SyncPass(failAt), w') && si < |mid| && Unsynced(mid[si]) && next < |mid|
    ensures OnlySyncLeft(w') && !Unsynced(w'[next]) <==>
            (forall s :: 0 <= s < |mid| ==> !HasWork(mid[s])) && !Reached(mid, failAt, |mid|) && !Unsynced(mid[next])
  {
    SyncPassCursors(mid, failAt, w');
    assert Unsynced(w'[si]) <==> !Reached(mid, failAt, |mid|);
  }

  lemma StillWork(w: seq<Shard>, si: nat, trigger: Trigger, x: Weather, mid: seq<Shard>, w': seq<Shard>)
    requires Suits(x, w) && Served(w, si, trigger, x, mid, w') && HasWork(w[si])
    requires !(BatchDue(w, si, trigger, x) && x.result.Wrote?)
    ensures HasWork(w'[si])
  {
    if SyncEvents(w, si, trigger, x, mid) == [SyncPass(x.failAt)] {
      SyncPassCursors(mid, x.failAt, w');
    }
  }

  /** Everything is committed, yet shard `current` has nothing to sync while another has. */
  predicate StuckAt(trigger: Trigger, w: seq<Shard>, current: nat)
    requires current < |w|
  {
    !trigger.durability.AsyncMode? && OnlySyncLeft(w) && !Unsynced(w[current])
  }

  /** One pass; a loop that has stopped stays as it is. */
  ghost predicate PassStep(trigger: Trigger, w: seq<Shard>, current: nat, x: Weather, w': seq<Shard>, next: nat)
  {
    && Suits(x, w) && current < |w| == |w'| && next < |w|
    && if AllDurable(w) then next == current && if x.draining then w' == w else Next(w, Drain(x.fails), w')
       else exists si: nat, mid :: Chosen(w, current, si, next) && Served(w, si, trigger, x, mid, w')
  }

  /** What a pass over a loop with something left to do comes to when only syncing is left. */
  lemma ServedOutcome(trigger: Trigger, w: seq<Shard>, current: nat, x: Weather, si: nat, mid: seq<Shard>, w': seq<Shard>, next: nat)
    requires Suits(x, w) && current < |w| && next < |w| && !AllDurable(w) && Chosen(w, current, si, next) && Served(w, si, trigger, x, mid, w')
    ensures PassStep(trigger, w, current, x, w', next)
    ensures OnlySyncLeft(w) && (SyncForFlush(w, x) || x.draining) && Reached(w, x.failAt, |w|) ==>
              (AllDurable(w') <==> !StuckAt(trigger, w, current))
    ensures StuckAt(trigger, w, current) ==> StuckAt(trigger, w', next) && next == current && Next(w, Drain(x.fails), w')
  {
    if OnlySyncLeft(w) {
      if StuckAt(trigger, w, current) {
        ServedIdle(w, si, trigger, x, mid, w');
      } else if (SyncForFlush(w, x) || x.draining) && Reached(w, x.failAt, |w|) {
        ServedSync(w, si, trigger, x, mid, w');
      }
    }
  }

  ghost predicate Stranded(trigger: Trigger, w: seq<Shard>, current: nat, x: Weather, next: nat)
    requires current < |w|
  {
    exists si: nat :: Chosen(w, current, si, next) && Strands(w, si, next, trigger, x)
  }

  /** After any pass the loop is stuck exactly when it was before or the pass strands it. */
  lemma PassStuckIff(trigger: Trigger, w: seq<Shard>, current: nat, x: Weather, w': seq<Shard>, next: nat)
    requires PassStep(trigger, w, current, x, w', next) && Ordered(w) && Matched(trigger) && !trigger.durability.AsyncMode?
    ensures StuckAt(trigger, w', next) <==> StuckAt(trigger, w, current) || Stranded(trigger, w, current, x, next)
  {
    if !AllDurable(w) {
      var si: nat, mid :| Chosen(w, current, si, next) && Served(w, si, trigger, x, mid, w');
      if exists s :: 0 <= s < |w| && HasWork(w[s]) {
        EntersStuckIff(w, si, trigger, x, mid, w', next);
        WorkNotStuck(w, current, si, next, trigger, x);
      } else {
        NoWorkStuckIff(trigger, w, si, x, mid, w');
      }
    }
  }

  /** With nothing to write, being stuck neither comes nor goes. */
  lemma NoWorkStuckIff(trigger: Trigger, w: seq<Shard>, si: nat, x: Weather, mid: seq<Shard>, w': seq<Shard>)
    requires Suits(x, w) && Served(w, si, trigger, x, mid, w') && OnlySyncLeft(w) && !trigger.durability.AsyncMode?
    ensures StuckAt(trigger, w', si) <==> StuckAt(trigger, w, si)
  {
    if Unsynced(w[si]) {
      SyncOrWait(w, si, trigger, x, mid, w');
    } else {
      ServedIdle(w, si, trigger, x, mid, w');
    }
  }

  /** With work about, only the shard served can strand the loop. */
  lemma WorkNotStuck(w: seq<Shard>, current: nat, si: nat, next: nat, trigger: Trigger, x: Weather)
    requires current < |w| && Chosen(w, current, si, next) && exists s :: 0 <= s < |w| && HasWork(w[s])
    ensures !StuckAt(trigger, w, current) && (Stranded(trigger, w, current, x, next) <==> Strands(w, si, next, trigger, x))
  {
    if t: nat :| Chosen(w, current, t, next) && Strands(w, t, next, trigger, x) {
      assert HasWork(w[si]) && HasWork(w[t]);
    }
  }

  lemma SyncOrWait(w: seq<Shard>, si: nat, trigger: Trigger, x: Weather, mid: seq<Shard>, w': seq<Shard>)
    requires Suits(x, w) && Served(w, si, trigger, x, mid, w') && OnlySyncLeft(w) && Unsynced(w[si])
    ensures AllDurable(w') || Unsynced(w'[si])
  {
    if SyncEvents(w, si, trigger, x, mid) == [SyncPass(x.failAt)] {
      SyncPassCursors(w, x.failAt, w');
    }
  }

  /** The shards, and whose turn it is. */
  datatype LoopState = LoopState(w: seq<Shard>, current: nat)

  /** Each cursor is behind the one before it. */
  predicate Lined(w: seq<Shard>)
  {
    forall s :: 0 <= s < |w| ==> w[s].completed <= w[s].durable <= w[s].committed <= w[s].avail <= w[s].claimed
  }

  lemma StepLined(w: seq<Shard>, e: Event, w': seq<Shard>)
    requires Lined(w) && Next(w, e, w')
    ensures Lined(w')
  {
    forall s | 0 <= s < |w'|
      ensures w'[s].completed <= w'[s].durable <= w'[s].committed <= w'[s].avail <= w'[s].claimed
    {
      match e
      case SyncPass(failAt) =>
        assert ShardSynced(w[s], w'[s], failAt[s], Reached(w, failAt, s), Reached(w, failAt, |w|));
      case _ =>
    }
  }

  lemma PassLined(trigger: Trigger, w: seq<Shard>, current: nat, x: Weather, w': seq<Shard>, next: nat)
    requires PassStep(trigger, w, current, x, w', next) && Lined(w)
    ensures Lined(w')
  {
    if AllDurable(w) {
      if !x.draining {
        StepLined(w, Drain(x.fails), w');
      }
    } else {
      var si: nat, mid :| Chosen(w, current, si, next) && Served(w, si, trigger, x, mid, w');
      MaybeLined(w, BatchEvents(w, si, trigger, x), mid);
      MaybeLined(mid, SyncEvents(w, si, trigger, x, mid), w');
    }
  }

  lemma MaybeLined(w: seq<Shard>, events: seq<Event>, w': seq<Shard>)
    requires Lined(w) && Maybe(w, events, w')
    ensures Lined(w')
  {
    if events != [] {
      StepLined(w, events[0], w');
    }
  }

  class CommitterLoop {
    var shards: seq<Shard>
    var currentShard: nat
    const trigger: Trigger

    constructor (trigger: Trigger, shards: seq<Shard>)
      requires Ready(shards)
      ensures Valid() && this.trigger == trigger && this.shards == shards && currentShard == 0
    {
      this.trigger, this.shards, currentShard := trigger, shards, 0;
    }

    ghost predicate Valid()
      reads this
    {
      Ready(shards) && currentShard < |shards|
    }

    /** Everything is committed, yet the shard whose turn it is has nothing to sync while another has. */
    predicate Stuck()
      requires Valid()
      reads this
    {
      StuckAt(trigger, shards, currentShard)
    }

    /** A producer claims and publishes one record. */
    method Produce(s: nat)
      requires Valid() && s < |shards| && shards[s].avail == shards[s].claimed
      modifies this`shards
      ensures Valid() && shards == old(shards)[s := old(shards)[s].(claimed := old(shards)[s].claimed + 1, avail := old(shards)[s].claimed + 1)]
      ensures exists mid :: Next(old(shards), Claim(s), mid) && Next(mid, Publish(s, old(shards)[s].claimed + 1), shards)
    {
      ghost var w := shards;
      shards := shards[s := shards[s].(claimed := shards[s].claimed + 1)];
      ghost var mid := shards;
      shards := shards[s := shards[s].(avail := shards[s].claimed)];
      assert Next(w, Claim(s), mid) && Next(mid, Publish(s, w[s].claimed + 1), shards);
    }

    /**
     One pass of the loop.  With nothing to write and nothing to sync it stops when draining and
     tidies up otherwise; else it serves the chosen shard.  When only syncing is left and someone
     waits for it, a pass whose syncs all succeed makes everything durable exactly when the loop was
     not stuck.
     */
    method Pass(x: Weather) returns (stop: bool, ghost si: nat, ghost mid: seq<Shard>)
      requires Valid() && Suits(x, shards)
      modifies this`shards, this`currentShard
      ensures Valid() && |shards| == |old(shards)|
      ensures stop <==> x.draining && AllDurable(old(shards))
      ensures stop ==> shards == old(shards)
      ensures AllDurable(old(shards)) && !stop ==> Next(old(shards), Drain(x.fails), shards)
      ensures !AllDurable(old(shards)) ==>
                && Chosen(old(shards), old(currentShard), si, currentShard)
                && Served(old(shards), si, trigger, x, mid, shards)
      ensures OnlySyncLeft(old(shards)) && (SyncForFlush(old(shards), x) || x.draining) && Reached(old(shards), x.failAt, |shards|) ==>
                (AllDurable(shards) <==> !old(Stuck()))
      ensures old(Stuck()) ==> Stuck() && currentShard == old(currentShard) && Next(old(shards), Drain(x.fails), shards)
      ensures PassStep(trigger, old(shards), old(currentShard), x, shards, currentShard)
    {
      var w := shards;
      si, mid := 0, w;
      var uncommitted := exists s :: 0 <= s < |w| && HasWork(w[s]);
      var unsynced := exists s :: 0 <= s < |w| && Unsynced(w[s]);
      var first := currentShard;
      var pick := Nobody;
      if uncommitted || unsynced || CommitForFlush(w, x) || SyncForFlush(w, x) {
        pick, currentShard := ChooseShard(w, currentShard);
      }
      if pick.Nobody? && !unsynced {
        if x.draining {
          stop := true;
          return;
        }
        shards := DrainShards(w, x.fails);
        stop := false;
        return;
      }
      var served := if pick.Pick? then pick.s else first;
      assert !AllDurable(w) && Chosen(w, first, served, currentShard);
      mid, shards := Serve(w, served, trigger, x);
      si := served;
      ServedOutcome(trigger, w, first, x, si, mid, shards, currentShard);
      stop := false;
    }

    /** A pass that strands the loop leaves it stuck. */
    method StrandingPass(x: Weather, ghost t: nat)
      requires Valid() && Suits(x, shards) && Ordered(shards) && Matched(trigger) && !trigger.durability.AsyncMode?
      requires t < |shards| && Strands(shards, t, Wrap(t, 1, |shards|), trigger, x)
      modifies this`shards, this`currentShard
      ensures Valid() && Stuck()
    {
      ghost var w, current := shards, currentShard;
      assert HasWork(w[t]);
      var stop, si, mid := Pass(x);
      StrandedNow(trigger, w, current, x, si, t, shards, currentShard);
    }

    /** A stuck loop syncs nothing in any number of passes, whatever flushes or shutdowns ask for it. */
    method StuckForever(xs: seq<Weather>)
      requires Valid() && Stuck() && forall i :: 0 <= i < |xs| ==> Suits(xs[i], shards)
      modifies this`shards, this`currentShard
      ensures Valid() && |shards| == |old(shards)| && Stuck()
      ensures forall s :: 0 <= s < |shards| ==> shards[s].durable == old(shards)[s].durable && shards[s].completed == old(shards)[s].completed
    {
      for i := 0 to |xs|
        invariant Valid() && Stuck() && |shards| == |old(shards)|
        invariant forall s :: 0 <= s < |shards| ==> shards[s].durable == old(shards)[s].durable && shards[s].completed == old(shards)[s].completed
      {
        ghost var before := shards;
        assert Suits(xs[i], shards);
        var stop, si, mid := Pass(xs[i]);
        assert forall s :: 0 <= s < |shards| ==> shards[s] == before[s].(mgr := shards[s].mgr);
      }
    }
  }

  /** Two opened shards, one record in the first. */
  method OneRecord(durability: Durability) returns (loop: CommitterLoop)
    ensures fresh(loop) && loop.Valid() && loop.trigger == Trigger(256 * 1024, 1024, durability)
    ensures |loop.shards| == 2 && Ordered(loop.shards) && Matched(loop.trigger)
    ensures loop.shards[0].avail == loop.shards[0].committed + 1 && !HasWork(loop.shards[1]) && !Unsynced(loop.shards[1])
  {
    loop := new CommitterLoop(Trigger(256 * 1024, 1024, durability), [Fresh(0), Fresh(0)]);
    assert Opened(loop.shards[0]) && Opened(loop.shards[1]);
    loop.Produce(0);
  }

  /**
   The loop gets stuck from opened shards: one record, committed because its time has come, and a
   sync that fails.
   */
  method ReachStuck(durability: Durability) returns (loop: CommitterLoop)
    requires !durability.AsyncMode?
    ensures loop.Valid() && loop.Stuck() && loop.trigger == Trigger(256 * 1024, 1024, durability)
  {
    loop := OneRecord(durability);
    var x := Weather(true, [None, None], false, 0, Wrote(0, false), [0, 0], [{}, {}]);
    FirstStrands(loop.trigger, loop.shards, x);
    loop.StrandingPass(x, 0);
  }

  lemma StrandedNow(trigger: Trigger, w: seq<Shard>, current: nat, x: Weather, si: nat, t: nat, w': seq<Shard>, next: nat)
    requires PassStep(trigger, w, current, x, w', next) && Ordered(w) && Matched(trigger) && !trigger.durability.AsyncMode?
    requires Chosen(w, current, si, next) && t < |w| && Strands(w, t, Wrap(t, 1, |w|), trigger, x)
    ensures StuckAt(trigger, w', next)
  {
    assert HasWork(w[t]);
    assert si == t;
    PassStuckIff(trigger, w, current, x, w', next);
  }

  /** The only record of two shards is due, and the sync fails at the first file. */
  lemma FirstStrands(trigger: Trigger, w: seq<Shard>, x: Weather)
    requires |w| == 2 && Suits(x, w) && w[0].avail == w[0].committed + 1 && !HasWork(w[1]) && !Unsynced(w[1])
    requires x.timeDue && x.result.Wrote? && x.failAt[0] == 0
    ensures Strands(w, 0, Wrap(0, 1, |w|), trigger, x)
  {
    assert HasWork(w[0]);
    assert !Reached(w, x.failAt, |w|) by {
      assert x.failAt[0] <= |w[0].mgr.pending|;
    }
  }
}
