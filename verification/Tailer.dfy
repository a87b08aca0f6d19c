/**
 The merging tailer: one read position per shard, batches in global-id order.

 A poll drains every shard between its position and its durable cursor, merges the shards by
 global id and cuts the result to `maxCount`.  `base` gives, per shard, the oldest local sequence
 that retention and checkpoint truncation have left on disk.
 */
module Tailer {
  import opened Arith
  import opened Sorting
  import opened RecordIds

  // ── Ranges of records ──────────────────────────────────────────────────────

  /** `gid` is a record of some shard `s` with `lo[s] <= local < hi[s]`. */
  predicate Within(gid: nat, lo: seq<nat>, hi: seq<nat>, bits: nat)
    requires |lo| == |hi|
  {
    var (s, l) := Decode(gid, bits);
    s < |lo| && lo[s] <= l < hi[s]
  }

  function PointwiseMax(a: seq<nat>, b: seq<nat>): (m: seq<nat>)
    requires |a| == |b|
    ensures |m| == |a| && forall s :: 0 <= s < |a| ==> m[s] == Max(a[s], b[s])
  {
    seq(|a|, s requires 0 <= s < |a| => Max(a[s], b[s]))
  }

  /** Upper ends of one poll's reads: at most `maxCount` records per shard, all durable. */
  function Caps(positions: seq<nat>, durable: seq<nat>, maxCount: nat): (hi: seq<nat>)
    requires |positions| == |durable|
    ensures |hi| == |positions| && forall s :: 0 <= s < |hi| ==> hi[s] == Min(positions[s] + maxCount, durable[s])
  {
    seq(|positions|, s requires 0 <= s < |positions| => Min(positions[s] + maxCount, durable[s]))
  }

  /** What a scan of one shard yields: the ids of locals `lo .. hi`, ascending. */
  function ShardScan(shard: nat, lo: nat, hi: nat, bits: nat): (ids: seq<nat>)
    requires shard < Pow2(bits)
    ensures forall g :: g in ids <==> Decode(g, bits).0 == shard && lo <= Decode(g, bits).1 < hi
    ensures forall g :: multiset(ids)[g] <= 1
    decreases hi - lo
  {
    if lo >= hi then
      []
    else
      DecodeGlobalId(shard, lo, bits);
      OnlyId(shard, lo, bits);
      var rest := ShardScan(shard, lo + 1, hi, bits);
      assert GlobalId(shard, lo, bits) !in rest;
      [GlobalId(shard, lo, bits)] + rest
  }

  lemma OnlyId(shard: nat, local: nat, bits: nat)
    requires shard < Pow2(bits)
    ensures forall g :: Decode(g, bits) == (shard, local) ==> g == GlobalId(shard, local, bits)
  {
  }

  /** `batch` is the `maxCount` lowest ids of the range, or all of them when there are fewer. */
  ghost predicate LowestOf(batch: seq<nat>, lo: seq<nat>, hi: seq<nat>, maxCount: nat, bits: nat)
    requires |lo| == |hi|
  {
    && Ascending(batch)
    && |batch| <= maxCount
    && (forall g :: g in batch ==> Within(g, lo, hi, bits))
    && (forall g :: Within(g, lo, hi, bits) && g !in batch ==> |batch| == maxCount && forall b :: b in batch ==> b < g)
  }

  /** The batch holds exactly the records between the two position vectors. */
  ghost predicate Delivers(batch: seq<nat>, lo: seq<nat>, after: seq<nat>, bits: nat)
    requires |lo| == |after|
  {
    forall g :: g in batch <==> Within(g, lo, after, bits)
  }

  // ── The per-shard cap loses nothing ────────────────────────────────────────

  /** All of a shard's ids from `from` to `local` in the batch need that many places. */
  lemma {:induction false} IndexAtLeast(batch: seq<nat>, shard: nat, from: nat, local: nat, bits: nat) returns (i: nat)
    requires shard < Pow2(bits) && Ascending(batch) && from <= local
    requires forall l :: from <= l <= local ==> GlobalId(shard, l, bits) in batch
    ensures local - from <= i < |batch| && batch[i] == GlobalId(shard, local, bits)
    decreases local
  {
    assert GlobalId(shard, local, bits) in batch;
    i :| 0 <= i < |batch| && batch[i] == GlobalId(shard, local, bits);
    if from < local {
      var p := IndexAtLeast(batch, shard, from, local - 1, bits);
      GlobalIdOrder(shard, local - 1, shard, local, bits);
      assert batch[p] < batch[i];
    }
  }

  /** A record beyond the cap of its shard comes after a full batch. */
  lemma BeyondCap(batch: seq<nat>, positions: seq<nat>, durable: seq<nat>, maxCount: nat, bits: nat, s: nat, l: nat)
    requires |positions| == |durable| <= Pow2(bits) && s < |positions|
    requires LowestOf(batch, positions, Caps(positions, durable, maxCount), maxCount, bits)
    requires positions[s] + maxCount <= l < durable[s]
    ensures |batch| == maxCount && forall b :: b in batch ==> b < GlobalId(s, l, bits)
  {
    if maxCount > 0 {
      var from, hi := positions[s], Caps(positions, durable, maxCount);
      forall k | from <= k < from + maxCount
        ensures Within(GlobalId(s, k, bits), positions, hi, bits) && GlobalId(s, k, bits) < GlobalId(s, l, bits)
      {
        DecodeGlobalId(s, k, bits);
        GlobalIdOrder(s, k, s, l, bits);
      }
      if k :| from <= k < from + maxCount && GlobalId(s, k, bits) !in batch {
      } else {
        FullOfOneShard(batch, s, from, maxCount, bits, GlobalId(s, l, bits));
      }
    }
  }

  lemma FullOfOneShard(batch: seq<nat>, s: nat, from: nat, maxCount: nat, bits: nat, g: nat)
    requires s < Pow2(bits) && Ascending(batch) && 0 < maxCount && |batch| <= maxCount
    requires forall k :: from <= k < from + maxCount ==> GlobalId(s, k, bits) in batch && GlobalId(s, k, bits) < g
    ensures |batch| == maxCount && forall b :: b in batch ==> b < g
  {
    var i := IndexAtLeast(batch, s, from, from + (maxCount - 1), bits);
    assert i == |batch| - 1;
  }

  /** With nothing truncated, the lowest ids of the capped ranges are the lowest of all. */
  lemma CapLosesNothing(batch: seq<nat>, positions: seq<nat>, durable: seq<nat>, maxCount: nat, bits: nat)
    requires |positions| == |durable| <= Pow2(bits)
    requires LowestOf(batch, positions, Caps(positions, durable, maxCount), maxCount, bits)
    ensures LowestOf(batch, positions, durable, maxCount, bits)
  {
    forall g | Within(g, positions, durable, bits) && g !in batch
      ensures |batch| == maxCount && forall b :: b in batch ==> b < g
    {
      var (s, l) := Decode(g, bits);
      if positions[s] + maxCount <= l {
        GlobalIdDecode(g, bits);
        BeyondCap(batch, positions, durable, maxCount, bits, s, l);
      }
    }
  }

  // ── One poll ───────────────────────────────────────────────────────────────

  datatype Polled = Nothing | Batch(ids: seq<nat>) | ReadError

  /** Everything one poll reads, shard after shard; `failAt` is a shard whose read fails, if below the count. */
  method Gather(positions: seq<nat>, durable: seq<nat>, base: seq<nat>, maxCount: nat, bits: nat, failAt: nat)
    returns (ok: bool, all: seq<nat>)
    requires |positions| == |durable| == |base| <= Pow2(bits)
    ensures !ok <==> failAt < |positions| && positions[failAt] < durable[failAt]
    ensures ok ==> forall g :: g in all <==> Within(g, PointwiseMax(positions, base), Caps(positions, durable, maxCount), bits)
    ensures ok ==> forall g :: multiset(all)[g] <= 1
  {
    all := [];
    ghost var lo, hi := PointwiseMax(positions, base), Caps(positions, durable, maxCount);
    for s := 0 to |positions|
      invariant !(failAt < s && positions[failAt] < durable[failAt])
      invariant forall g :: g in all <==> Within(g, lo, hi, bits) && Decode(g, bits).0 < s
      invariant forall g :: multiset(all)[g] <= 1
    {
      if positions[s] < durable[s] {
        if s == failAt {
          return false, all;
        }
        var to := Min(positions[s] + maxCount, durable[s]);
        var part := ShardScan(s, Max(positions[s], base[s]), to, bits);
        DisjointParts(all, part);
        all := all + part;
      }
    }
    ok := true;
  }

  lemma DisjointParts(a: seq<nat>, b: seq<nat>)
    requires forall g :: multiset(a)[g] <= 1
    requires forall g :: multiset(b)[g] <= 1
    requires forall g :: g in b ==> g !in a
    ensures forall g :: multiset(a + b)[g] <= 1
  {
    forall g
      ensures multiset(a + b)[g] <= 1
    {
      assert multiset(a + b)[g] == multiset(a)[g] + multiset(b)[g];
      assert g in b <==> multiset(b)[g] > 0;
      assert g in a <==> multiset(a)[g] > 0;
    }
  }

  /** Sorting by id and truncating leaves the lowest ids. */
  lemma TruncatedIsLowest(all: seq<nat>, sorted: seq<nat>, lo: seq<nat>, hi: seq<nat>, maxCount: nat, bits: nat)
    requires |lo| == |hi|
    requires forall g :: g in all <==> Within(g, lo, hi, bits)
    requires forall g :: multiset(all)[g] <= 1
    requires Sorted(sorted) && multiset(sorted) == multiset(all)
    ensures LowestOf(sorted[..Min(maxCount, |sorted|)], lo, hi, maxCount, bits)
  {
    SortedDistinctAscending(sorted);
    SameElements(all, sorted);
    var batch := sorted[..Min(maxCount, |sorted|)];
    forall j | 0 <= j < |batch|
      ensures sorted[j] in batch
    {
      assert batch[j] == sorted[j];
    }
    forall g | Within(g, lo, hi, bits) && g !in batch
      ensures |batch| == maxCount && forall b :: b in batch ==> b < g
    {
      var i :| 0 <= i < |sorted| && sorted[i] == g;
    }
  }

  /** Next record of a lowest-first batch: its shard's records before it are already in the prefix. */
  lemma NextIsAdjacent(batch: seq<nat>, k: nat, lo: seq<nat>, hi: seq<nat>, maxCount: nat, bits: nat, positions: seq<nat>)
    requires |lo| == |hi| == |positions| && k < |batch|
    requires LowestOf(batch, lo, hi, maxCount, bits)
    requires Delivers(batch[..k], lo, positions, bits)
    ensures var (s, l) := Decode(batch[k], bits); s < |lo| && positions[s] <= l && (l == lo[s] || l == positions[s])
  {
    var g := batch[k];
    var (s, l) := Decode(g, bits);
    assert Within(g, lo, hi, bits);
    assert g !in batch[..k];
    if lo[s] < l {
      var h := GlobalId(s, l - 1, bits);
      DecodeGlobalId(s, l - 1, bits);
      GlobalIdDecode(g, bits);
      GlobalIdOrder(s, l - 1, s, l, bits);
      assert Within(h, lo, hi, bits) && h < g;
      assert h in batch;
      var i :| 0 <= i < |batch| && batch[i] == h;
      assert i < k;
      assert batch[..k][i] == h;
      assert Within(h, lo, positions, bits);
    }
  }

  /** Position vector after the batch has been handed out, record by record. */
  method Advance(batch: seq<nat>, positions: seq<nat>, ghost lo: seq<nat>, ghost hi: seq<nat>, ghost maxCount: nat, bits: nat)
    returns (after: seq<nat>)
    requires |lo| == |hi| == |positions|
    requires forall s :: 0 <= s < |lo| ==> positions[s] <= lo[s]
    requires LowestOf(batch, lo, hi, maxCount, bits)
    ensures |after| == |positions| && Delivers(batch, lo, after, bits)
    ensures forall s :: 0 <= s < |lo| ==> positions[s] <= after[s] && (after[s] == positions[s] || lo[s] < after[s] <= hi[s])
  {
    after := positions;
    for k := 0 to |batch|
      invariant |after| == |positions|
      invariant Delivers(batch[..k], lo, after, bits)
      invariant forall s :: 0 <= s < |lo| ==> positions[s] <= after[s] && (after[s] == positions[s] || lo[s] < after[s] <= hi[s])
    {
      var (shard, local) := Decode(batch[k], bits);
      NextIsAdjacent(batch, k, lo, hi, maxCount, bits, after);
      assert Within(batch[k], lo, hi, bits);
      ghost var was := after;
      if local + 1 > after[shard] {
        after := after[shard := local + 1];
      }
      ExtendDelivery(batch, k, lo, was, after, bits);
    }
    assert batch[..|batch|] == batch;
  }

  lemma ExtendDelivery(batch: seq<nat>, k: nat, lo: seq<nat>, was: seq<nat>, after: seq<nat>, bits: nat)
    requires |lo| == |was| && k < |batch|
    requires Delivers(batch[..k], lo, was, bits)
    requires var (s, l) := Decode(batch[k], bits);
             s < |lo| && lo[s] <= l && was[s] <= l && (l == lo[s] || l == was[s]) && after == was[s := l + 1]
    ensures Delivers(batch[..k + 1], lo, after, bits)
  {
    assert batch[..k + 1] == batch[..k] + [batch[k]];
    var (s, l) := Decode(batch[k], bits);
    OnlyId(s, l, bits);
    GlobalIdDecode(batch[k], bits);
  }

  /** The effect of one successful poll on the position vector. */
  ghost predicate PollStep(before: seq<nat>, after: seq<nat>, durable: seq<nat>, base: seq<nat>, maxCount: nat, bits: nat, ids: seq<nat>)
  {
    && |before| == |after| == |durable| == |base| <= Pow2(bits)
    && var lo := PointwiseMax(before, base);
       && LowestOf(ids, lo, Caps(before, durable, maxCount), maxCount, bits)
       && Delivers(ids, lo, after, bits)
       && forall s :: 0 <= s < |before| ==> before[s] <= after[s] && (after[s] == before[s] || lo[s] < after[s] <= durable[s])
  }

  class TailerState {
    var positions: seq<nat>
    const bits: nat

    ghost predicate Valid()
      reads this
    {
      |positions| <= Pow2(bits)
    }

    constructor (positions: seq<nat>, bits: nat)
      requires |positions| <= Pow2(bits)
      ensures Valid() && this.positions == positions && this.bits == bits
    {
      this.positions := positions;
      this.bits := bits;
    }

    method NextBatch(maxCount: nat, durable: seq<nat>, base: seq<nat>, failAt: nat) returns (r: Polled)
      requires Valid() && |durable| == |base| == |positions|
      modifies this
      ensures Valid()
      ensures r.ReadError? <==> failAt < |durable| && old(positions)[failAt] < durable[failAt]
      ensures r.ReadError? ==> positions == old(positions)
      ensures r.Nothing? ==> PollStep(old(positions), positions, durable, base, maxCount, bits, []) && positions == old(positions)
      ensures r.Batch? ==> r.ids != [] && PollStep(old(positions), positions, durable, base, maxCount, bits, r.ids)
    {
      ghost var lo, hi := PointwiseMax(positions, base), Caps(positions, durable, maxCount);
      var ok, all := Gather(positions, durable, base, maxCount, bits, failAt);
      if !ok {
        return ReadError;
      }
      var batch := Merge(all, lo, hi, maxCount, bits);
      if all == [] {
        NothingDelivered(positions, lo, bits);
        return Nothing;
      }
      CappedGather(all, positions, lo, durable, maxCount, bits);
      var after := Advance(batch, positions, lo, hi, maxCount, bits);
      positions := after;
      return Batch(batch);
    }
  }

  /** Ascending by id, cut to `maxCount`. */
  method Merge(all: seq<nat>, ghost lo: seq<nat>, ghost hi: seq<nat>, maxCount: nat, bits: nat) returns (batch: seq<nat>)
    requires |lo| == |hi|
    requires forall g :: g in all <==> Within(g, lo, hi, bits)
    requires forall g :: multiset(all)[g] <= 1
    ensures LowestOf(batch, lo, hi, maxCount, bits)
    ensures |batch| == Min(maxCount, |all|)
  {
    var sorted := Sort(all);
    TruncatedIsLowest(all, sorted, lo, hi, maxCount, bits);
    SameElements(all, sorted);
    batch := sorted;
    if |batch| > maxCount {
      batch := batch[..maxCount];
    }
    assert batch == sorted[..Min(maxCount, |sorted|)];
  }

  lemma NothingDelivered(positions: seq<nat>, lo: seq<nat>, bits: nat)
    requires |positions| == |lo| && forall s :: 0 <= s < |lo| ==> positions[s] <= lo[s]
    ensures Delivers([], lo, positions, bits)
  {
  }

  /** Something was read only if the limit allows something to be returned. */
  lemma CappedGather(all: seq<nat>, positions: seq<nat>, lo: seq<nat>, durable: seq<nat>, maxCount: nat, bits: nat)
    requires |positions| == |lo| == |durable| && all != []
    requires forall s :: 0 <= s < |lo| ==> positions[s] <= lo[s]
    requires forall g :: g in all <==> Within(g, lo, Caps(positions, durable, maxCount), bits)
    ensures maxCount > 0
  {
    assert Within(all[0], lo, Caps(positions, durable, maxCount), bits);
  }

  /** While nothing was truncated ahead of a position, a poll returns the lowest undelivered durable records. */
  lemma PollReturnsLowest(before: seq<nat>, after: seq<nat>, durable: seq<nat>, base: seq<nat>, maxCount: nat, bits: nat, ids: seq<nat>)
    requires PollStep(before, after, durable, base, maxCount, bits, ids)
    requires forall s :: 0 <= s < |before| ==> base[s] <= before[s]
    ensures LowestOf(ids, before, durable, maxCount, bits)
    ensures Delivers(ids, before, after, bits)
    ensures maxCount > 0 && ids == [] ==> forall g :: !Within(g, before, durable, bits)
  {
    assert PointwiseMax(before, base) == before;
    CapLosesNothing(ids, before, durable, maxCount, bits);
  }

  // ── Truncation ahead of a position ─────────────────────────────────────────

  /**
   A poll comes back empty exactly when every shard with something to read has lost its next
   `maxCount` records to truncation.
   */
  lemma EmptyPollIff(before: seq<nat>, after: seq<nat>, durable: seq<nat>, base: seq<nat>, maxCount: nat, bits: nat, ids: seq<nat>)
    requires PollStep(before, after, durable, base, maxCount, bits, ids) && maxCount > 0
    ensures ids == [] <==> forall s :: 0 <= s < |before| ==> durable[s] <= Max(before[s], base[s]) || before[s] + maxCount <= base[s]
  {
    var lo, hi := PointwiseMax(before, base), Caps(before, durable, maxCount);
    forall s | 0 <= s < |before| && lo[s] < hi[s]
      ensures ids != []
    {
      DecodeGlobalId(s, lo[s], bits);
      assert Within(GlobalId(s, lo[s], bits), lo, hi, bits);
    }
    if ids != [] {
      assert Within(ids[0], lo, hi, bits);
    }
  }

  /** Five records are durable, the first three truncated: asked for two at a time, the tailer at 0 finds nothing. */
  method OvertakenTailer() returns (r: Polled)
    ensures r == Nothing && Within(3, [3], [5], 0) && Within(4, [3], [5], 0)
  {
    var tailer := new TailerState([0], 0);
    r := tailer.NextBatch(2, [5], [3], 1);
    if r.Batch? {
      EmptyPollIff([0], tailer.positions, [5], [3], 2, 0, r.ids);
    }
    DecodeGlobalId(0, 3, 0);
    DecodeGlobalId(0, 4, 0);
  }

  datatype Poll = Poll(before: seq<nat>, after: seq<nat>, durable: seq<nat>, base: seq<nat>, maxCount: nat, ids: seq<nat>)

  /** Consecutive polls; durable cursors and truncation points may be anything at each of them. */
  ghost predicate IsRun(run: seq<Poll>, start: seq<nat>, end: seq<nat>, bits: nat)
  {
    if run == [] then
      start == end
    else
      var p := run[|run| - 1];
      && p.after == end
      && PollStep(p.before, p.after, p.durable, p.base, p.maxCount, bits, p.ids)
      && IsRun(run[..|run| - 1], start, p.before, bits)
  }

  /** Truncation at least `limit` records past a position stops that shard for good. */
  lemma {:induction false} StuckForever(run: seq<Poll>, start: seq<nat>, end: seq<nat>, bits: nat, s: nat, limit: nat)
    requires IsRun(run, start, end, bits) && s < |start|
    requires forall p :: p in run ==> p.maxCount <= limit && s < |p.base| && start[s] + limit <= p.base[s]
    ensures |end| == |start| && end[s] == start[s]
    ensures forall p, g :: p in run && g in p.ids ==> Decode(g, bits).0 != s
  {
    if run != [] {
      var last := |run| - 1;
      var p := run[last];
      assert p in run;
      assert forall q :: q in run[..last] ==> q in run;
      StuckForever(run[..last], start, p.before, bits, s, limit);
      var lo, hi := PointwiseMax(p.before, p.base), Caps(p.before, p.durable, p.maxCount);
      forall g | g in p.ids
        ensures Decode(g, bits).0 != s
      {
        assert Within(g, lo, hi, bits);
      }
      if p.after[s] != p.before[s] {
        DecodeGlobalId(s, lo[s], bits);
        assert Within(GlobalId(s, lo[s], bits), lo, p.after, bits);
      }
      forall q, g | q in run && g in q.ids
        ensures Decode(g, bits).0 != s
      {
        assert q == p || q in run[..last];
      }
    }
  }

  // ── Whole runs ─────────────────────────────────────────────────────────────

  /** How many batches of the run hold `g`. */
  ghost function Deliveries(run: seq<Poll>, g: nat): (n: nat)
  {
    if run == [] then
      0
    else
      Deliveries(run[..|run| - 1], g) + if g in run[|run| - 1].ids then 1 else 0
  }

  /** How many polls stepped over local `l` of shard `s` because it had been truncated. */
  ghost function Skips(run: seq<Poll>, s: nat, l: nat): (n: nat)
  {
    if run == [] then
      0
    else
      var p := run[|run| - 1];
      Skips(run[..|run| - 1], s, l)
      + if s < |p.before| && s < |p.after| && s < |p.base| && p.before[s] <= l < p.after[s] && l < p.base[s] then 1 else 0
  }

  /**
   Over any run each record between the first and the last position vector is delivered or
   skipped exactly once, and no other record is.
   */
  lemma {:induction false} DeliveredOnce(run: seq<Poll>, start: seq<nat>, end: seq<nat>, bits: nat, g: nat)
    requires IsRun(run, start, end, bits)
    ensures |start| == |end|
    ensures var (s, l) := Decode(g, bits);
            s < |start| ==>
              && start[s] <= end[s]
              && Deliveries(run, g) + Skips(run, s, l) == if start[s] <= l < end[s] then 1 else 0
    ensures Decode(g, bits).0 >= |start| ==> Deliveries(run, g) == 0
  {
    if run != [] {
      var p := run[|run| - 1];
      DeliveredOnce(run[..|run| - 1], start, p.before, bits, g);
      var (s, l) := Decode(g, bits);
      assert g in p.ids <==> Within(g, PointwiseMax(p.before, p.base), p.after, bits);
    }
  }

  lemma {:induction false} NoSkips(run: seq<Poll>, s: nat, l: nat)
    requires forall p :: p in run ==> s < |p.base| && s < |p.before| && p.base[s] <= p.before[s]
    ensures Skips(run, s, l) == 0
  {
    if run != [] {
      var last := |run| - 1;
      assert run[last] in run;
      assert forall q :: q in run[..last] ==> q in run;
      NoSkips(run[..last], s, l);
    }
  }

  /** Without truncation ahead of the reader the delivered locals are a gap-free interval, each once. */
  lemma DeliveredExactly(run: seq<Poll>, start: seq<nat>, end: seq<nat>, bits: nat, s: nat, l: nat)
    requires IsRun(run, start, end, bits) && s < |start| && s < Pow2(bits)
    requires forall p :: p in run ==> s < |p.base| && s < |p.before| && p.base[s] <= p.before[s]
    ensures |start| == |end|
    ensures Deliveries(run, GlobalId(s, l, bits)) == if start[s] <= l < end[s] then 1 else 0
  {
    DecodeGlobalId(s, l, bits);
    DeliveredOnce(run, start, end, bits, GlobalId(s, l, bits));
    NoSkips(run, s, l);
  }
}
