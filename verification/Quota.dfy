/**
 Stream quotas.

 The service counts live records and bytes per stream as it appends, resets the count when a stream
 is deleted, and refuses appends that would exceed a configured limit.  After a restart the counts
 and the tombstone cutoffs are computed from the stored records.
 */
module Quota {
  import opened Arith
  import opened Wrappers

  /** `tombstone`: the event type is the reserved one that marks a stream as deleted up to `num`. */
  datatype Record = Record(ns: nat, stream: nat, num: nat, bytes: nat, tombstone: bool)

  datatype Usage = Usage(records: nat, bytes: nat)
  datatype Limit = Limit(ns: nat, stream: nat, maxRecords: Option<nat>, maxBytes: Option<nat>)
  datatype Key = Key(ns: nat, stream: nat)

  function UsageAt(usage: map<Key, Usage>, key: Key): (u: Usage)
  {
    if key in usage then usage[key] else Usage(0, 0)
  }

  function CutoffAt(cutoffs: map<nat, nat>, stream: nat): (n: nat)
  {
    if stream in cutoffs then cutoffs[stream] else 0
  }

  // ── What the stored records say ────────────────────────────────────────────

  /** Counts towards the stream: not a tombstone and above the cutoff. */
  predicate Counts(r: Record, cutoff: nat, key: Key)
  {
    !r.tombstone && r.num > cutoff && r.ns == key.ns && r.stream == key.stream
  }

  function Seed(log: seq<Record>, cutoff: nat, key: Key): (u: Usage)
  {
    if log == [] then Usage(0, 0)
    else
      var u, r := Seed(log[..|log| - 1], cutoff, key), log[|log| - 1];
      if Counts(r, cutoff, key) then Usage(u.records + 1, u.bytes + r.bytes) else u
  }

  function LastTombstone(log: seq<Record>, stream: nat): (n: nat)
  {
    if log == [] then 0
    else
      var n, r := LastTombstone(log[..|log| - 1], stream), log[|log| - 1];
      if r.tombstone && r.stream == stream then Max(n, r.num) else n
  }

  /** Start-up: the cutoffs from a scan of the stored records. */
  method RebuildCutoffs(log: seq<Record>) returns (cutoffs: map<nat, nat>)
    ensures forall stream :: CutoffAt(cutoffs, stream) == LastTombstone(log, stream)
  {
    cutoffs := map[];
    for i := 0 to |log|
      invariant forall stream :: CutoffAt(cutoffs, stream) == LastTombstone(log[..i], stream)
    {
      assert log[..i + 1][..i] == log[..i];
      var r := log[i];
      if r.tombstone {
        cutoffs := cutoffs[r.stream := Max(CutoffAt(cutoffs, r.stream), r.num)];
      }
    }
    assert log[..|log|] == log;
  }

  /** Start-up: the usage from a scan of the stored records. */
  method SeedUsage(log: seq<Record>, cutoffs: map<nat, nat>) returns (usage: map<Key, Usage>)
    ensures forall key :: UsageAt(usage, key) == Seed(log, CutoffAt(cutoffs, key.stream), key)
  {
    usage := map[];
    for i := 0 to |log|
      invariant forall key :: UsageAt(usage, key) == Seed(log[..i], CutoffAt(cutoffs, key.stream), key)
    {
      assert log[..i + 1][..i] == log[..i];
      var r := log[i];
      if !r.tombstone && r.num > CutoffAt(cutoffs, r.stream) {
        var key := Key(r.ns, r.stream);
        var u := UsageAt(usage, key);
        usage := usage[key := Usage(u.records + 1, u.bytes + r.bytes)];
      }
    }
    assert log[..|log|] == log;
  }

  lemma SeedMore(log: seq<Record>, r: Record, cutoff: nat, key: Key)
    ensures Seed(log + [r], cutoff, key) ==
            var u := Seed(log, cutoff, key);
            if Counts(r, cutoff, key) then Usage(u.records + 1, u.bytes + r.bytes) else u
    ensures LastTombstone(log + [r], key.stream) ==
            if r.tombstone && r.stream == key.stream then Max(LastTombstone(log, key.stream), r.num) else LastTombstone(log, key.stream)
  {
    assert (log + [r])[..|log|] == log;
  }

  /** A cutoff at or above every record of the stream leaves nothing to count. */
  lemma {:induction false} SeedAllDead(log: seq<Record>, cutoff: nat, key: Key)
    requires forall i :: 0 <= i < |log| && log[i].stream == key.stream ==> log[i].num <= cutoff
    ensures Seed(log, cutoff, key) == Usage(0, 0)
  {
    if log != [] {
      SeedAllDead(log[..|log| - 1], cutoff, key);
    }
  }

  lemma {:induction false} SeedForeign(log: seq<Record>, cutoff: nat, key: Key)
    requires forall i :: 0 <= i < |log| && log[i].stream == key.stream ==> log[i].ns != key.ns
    ensures Seed(log, cutoff, key) == Usage(0, 0)
  {
    if log != [] {
      SeedForeign(log[..|log| - 1], cutoff, key);
    }
  }

  lemma {:induction false} LastTombstoneIs(log: seq<Record>, stream: nat, bound: nat)
    requires forall i :: 0 <= i < |log| && log[i].stream == stream ==> log[i].num < bound
    ensures LastTombstone(log, stream) < bound || LastTombstone(log, stream) == 0
    ensures forall i :: 0 <= i < |log| && log[i].stream == stream && log[i].tombstone ==> log[i].num <= LastTombstone(log, stream)
  {
    if log != [] {
      LastTombstoneIs(log[..|log| - 1], stream, bound);
    }
  }

  /** What a restart would count: the cutoffs rebuilt, then the live records. */
  function Recount(log: seq<Record>, key: Key): (u: Usage)
  {
    Seed(log, LastTombstone(log, key.stream), key)
  }

  function More(u: Usage, records: nat, bytes: nat): (v: Usage)
  {
    Usage(u.records + records, u.bytes + bytes)
  }

  predicate NoMore(u: Usage, v: Usage)
  {
    u.records <= v.records && u.bytes <= v.bytes
  }

  /** The tracked usage is the recount, or above it once a client stored a tombstone of its own. */
  predicate Status(tracked: Usage, recount: Usage, tainted: bool)
  {
    if tainted then NoMore(recount, tracked) && tracked.records > recount.records else tracked == recount
  }

  /** One stored record: an ordinary one is counted by both; a tombstone empties the recount and is still counted by the tracker. */
  lemma CountedOnce(log: seq<Record>, r: Record, tracked: Usage, key: Key, tainted: bool)
    requires forall i :: 0 <= i < |log| && log[i].stream == r.stream ==> log[i].num < r.num
    requires r.num > 0 && Status(tracked, Recount(log, key), tainted)
    ensures key == Key(r.ns, r.stream) ==> Status(More(tracked, 1, r.bytes), Recount(log + [r], key), tainted || r.tombstone)
    ensures key.stream != r.stream ==> Status(tracked, Recount(log + [r], key), tainted)
  {
    LastTombstoneIs(log, r.stream, r.num);
    SeedMore(log, r, LastTombstone(log + [r], key.stream), key);
    if key.stream == r.stream && r.tombstone {
      SeedAllDead(log, r.num, key);
    }
  }

  // ── The service ────────────────────────────────────────────────────────────

  /** Within every limit configured for the stream. */
  predicate Within(limits: seq<Limit>, key: Key, u: Usage)
  {
    forall i :: 0 <= i < |limits| && Key(limits[i].ns, limits[i].stream) == key ==>
                  && (limits[i].maxRecords.Some? ==> u.records <= limits[i].maxRecords.value)
                  && (limits[i].maxBytes.Some? ==> u.bytes <= limits[i].maxBytes.value)
  }

  method CheckQuota(limits: seq<Limit>, key: Key, u: Usage, records: nat, bytes: nat) returns (ok: bool)
    ensures ok <==> Within(limits, key, More(u, records, bytes))
  {
    for i := 0 to |limits|
      invariant Within(limits[..i], key, More(u, records, bytes))
    {
      var q := limits[i];
      if Key(q.ns, q.stream) == key {
        if q.maxRecords.Some? && u.records + records > q.maxRecords.value {
          return false;
        }
        if q.maxBytes.Some? && u.bytes + bytes > q.maxBytes.value {
          return false;
        }
      }
    }
    ok := true;
  }

  lemma WithinLess(limits: seq<Limit>, key: Key, u: Usage, v: Usage)
    requires Within(limits, key, v) && NoMore(u, v)
    ensures Within(limits, key, u)
  {
  }

  /** One append request of a batch. */
  datatype Request = Request(bytes: nat, tombstone: bool, stored: bool)

  function TotalBytes(requests: seq<Request>): (n: nat)
  {
    if requests == [] then 0 else requests[0].bytes + TotalBytes(requests[1..])
  }

  lemma {:induction false} BytesGrow(requests: seq<Request>, n: nat)
    requires n < |requests|
    ensures TotalBytes(requests[..n + 1]) == TotalBytes(requests[..n]) + requests[n].bytes <= TotalBytes(requests)
  {
    if n == 0 {
      assert requests[..1][1..] == [];
    } else {
      BytesGrow(requests[1..], n - 1);
      assert requests[..n + 1][1..] == requests[1..][..n];
      assert requests[..n][1..] == requests[1..][..n - 1];
    }
  }

  /** When the whole batch fits, so does each step of it. */
  lemma NextFits(limits: seq<Limit>, key: Key, u: Usage, requests: seq<Request>, n: nat)
    requires n < |requests| && Within(limits, key, More(u, |requests|, TotalBytes(requests)))
    ensures var before, after := More(u, n, TotalBytes(requests[..n])), More(u, n + 1, TotalBytes(requests[..n + 1]));
            after == More(before, 1, requests[n].bytes) && Within(limits, key, after)
  {
    BytesGrow(requests, n);
    WithinLess(limits, key, More(u, n + 1, TotalBytes(requests[..n + 1])), More(u, |requests|, TotalBytes(requests)));
  }

  predicate NoTombstones(requests: seq<Request>)
  {
    forall i :: 0 <= i < |requests| ==> !requests[i].tombstone
  }

  lemma NoneYet(requests: seq<Request>, n: nat)
    requires n < |requests|
    ensures NoTombstones(requests[..n + 1]) <==> NoTombstones(requests[..n]) && !requests[n].tombstone
  {
    assert requests[..n + 1] == requests[..n] + [requests[n]];
    assert (requests[..n] + [requests[n]])[n] == requests[n];
  }

  /** `n` more records of one stream at the end. */
  ghost predicate Grown(log: seq<Record>, log': seq<Record>, key: Key, n: nat)
  {
    |log'| == |log| + n && log <= log' && forall i :: |log| <= i < |log'| ==> log'[i].stream == key.stream && log'[i].ns == key.ns
  }

  lemma GrownMore(log: seq<Record>, log': seq<Record>, key: Key, n: nat, r: Record)
    requires Grown(log, log', key, n) && r.stream == key.stream && r.ns == key.ns
    ensures Grown(log, log' + [r], key, n + 1)
  {
  }

  /** The first `n` requests of a batch have been stored and counted. */
  ghost predicate Batched(log: seq<Record>, u: Usage, tainted: set<nat>, log': seq<Record>, u': Usage, tainted': set<nat>,
                          key: Key, requests: seq<Request>, n: nat)
  {
    && n <= |requests| && Grown(log, log', key, n)
    && u' == More(u, n, TotalBytes(requests[..n]))
    && tainted' == if NoTombstones(requests[..n]) then tainted else tainted + {key.stream}
  }

  lemma BatchedMore(log: seq<Record>, u: Usage, tainted: set<nat>, log': seq<Record>, u': Usage, tainted': set<nat>,
                    key: Key, requests: seq<Request>, n: nat, r: Record)
    requires Batched(log, u, tainted, log', u', tainted', key, requests, n) && n < |requests|
    requires r.stream == key.stream && r.ns == key.ns
    ensures Batched(log, u, tainted, log' + [r], More(u', 1, requests[n].bytes),
                    if requests[n].tombstone then tainted' + {key.stream} else tainted', key, requests, n + 1)
  {
    GrownMore(log, log', key, n, r);
    NoneYet(requests, n);
    BytesGrow(requests, n);
  }

  function NextOf(nexts: map<nat, nat>, stream: nat): (n: nat)
  {
    if stream in nexts then nexts[stream] else 1
  }

  /** Every stored seq of a stream is below the stream's next one. */
  ghost predicate Numbered(log: seq<Record>, nexts: map<nat, nat>)
  {
    && (forall i :: 0 <= i < |log| ==> log[i].num < NextOf(nexts, log[i].stream))
    && (forall stream :: NextOf(nexts, stream) >= 1)
  }

  /** The catalog gives a stream id to one namespace. */
  ghost predicate AtHome(log: seq<Record>, home: nat -> nat)
  {
    forall i :: 0 <= i < |log| ==> log[i].ns == home(log[i].stream)
  }

  function HomeKey(home: nat -> nat, stream: nat): (key: Key)
  {
    Key(home(stream), stream)
  }

  ghost predicate Counted(log: seq<Record>, usage: map<Key, Usage>, home: nat -> nat, tainted: set<nat>)
  {
    forall stream :: Status(UsageAt(usage, HomeKey(home, stream)), Recount(log, HomeKey(home, stream)), stream in tainted)
  }

  /** No cutoff is beyond the stored tombstones, and none lags behind in a stream without taint. */
  ghost predicate CutRight(log: seq<Record>, cutoffs: map<nat, nat>, tainted: set<nat>)
  {
    forall stream :: CutoffAt(cutoffs, stream) <= LastTombstone(log, stream)
                     && (stream !in tainted ==> CutoffAt(cutoffs, stream) == LastTombstone(log, stream))
  }

  ghost predicate LimitsKept(limits: seq<Limit>, usage: map<Key, Usage>)
  {
    forall key :: Within(limits, key, UsageAt(usage, key))
  }

  lemma LimitsMore(limits: seq<Limit>, usage: map<Key, Usage>, key: Key, u: Usage, usage': map<Key, Usage>)
    requires LimitsKept(limits, usage) && usage' == usage[key := u]
    requires Within(limits, key, u) || u == Usage(0, 0)
    ensures LimitsKept(limits, usage')
  {
    forall k
      ensures Within(limits, k, UsageAt(usage', k))
    {
      assert Within(limits, k, UsageAt(usage, k));
    }
  }

  /** Storing one record and counting it. */
  lemma CountedMore(log: seq<Record>, r: Record, usage: map<Key, Usage>, cutoffs: map<nat, nat>, home: nat -> nat, tainted: set<nat>)
    requires forall i :: 0 <= i < |log| && log[i].stream == r.stream ==> log[i].num < r.num
    requires r.num > 0 && r.ns == home(r.stream) && Counted(log, usage, home, tainted) && CutRight(log, cutoffs, tainted)
    ensures var key := Key(r.ns, r.stream);
            var tainted' := if r.tombstone then tainted + {r.stream} else tainted;
            && Counted(log + [r], usage[key := More(UsageAt(usage, key), 1, r.bytes)], home, tainted')
            && CutRight(log + [r], cutoffs, tainted')
  {
    forall stream
      ensures Status(UsageAt(usage[Key(r.ns, r.stream) := More(UsageAt(usage, Key(r.ns, r.stream)), 1, r.bytes)], HomeKey(home, stream)),
                     Recount(log + [r], HomeKey(home, stream)), stream in tainted || (r.tombstone && stream == r.stream))
    {
      CountedOnce(log, r, UsageAt(usage, HomeKey(home, stream)), HomeKey(home, stream), stream in tainted);
    }
    forall stream
      ensures LastTombstone(log + [r], stream) == if r.tombstone && r.stream == stream then Max(LastTombstone(log, stream), r.num) else LastTombstone(log, stream)
    {
      SeedMore(log, r, 0, Key(0, stream));
    }
  }

  /** Storing a tombstone, recording its cutoff and starting the count over. */
  lemma DeletedAll(log: seq<Record>, r: Record, usage: map<Key, Usage>, cutoffs: map<nat, nat>, home: nat -> nat, tainted: set<nat>)
    requires forall i :: 0 <= i < |log| && log[i].stream == r.stream ==> log[i].num < r.num
    requires r.tombstone && r.num > 0 && r.ns == home(r.stream) && Counted(log, usage, home, tainted) && CutRight(log, cutoffs, tainted)
    ensures Counted(log + [r], usage[Key(r.ns, r.stream) := Usage(0, 0)], home, tainted - {r.stream})
    ensures CutRight(log + [r], cutoffs[r.stream := Max(CutoffAt(cutoffs, r.stream), r.num)], tainted - {r.stream})
  {
    LastTombstoneIs(log, r.stream, r.num);
    forall stream
      ensures Status(UsageAt(usage[Key(r.ns, r.stream) := Usage(0, 0)], HomeKey(home, stream)),
                     Recount(log + [r], HomeKey(home, stream)), stream in tainted - {r.stream})
      ensures LastTombstone(log + [r], stream) == if r.stream == stream then r.num else LastTombstone(log, stream)
    {
      SeedMore(log, r, LastTombstone(log + [r], stream), HomeKey(home, stream));
      if stream == r.stream {
        SeedAllDead(log, r.num, HomeKey(home, stream));
      }
    }
  }

  class Service {
    var log: seq<Record>
    var nexts: map<nat, nat>
    var cutoffs: map<nat, nat>
    var usage: map<Key, Usage>
    const limits: seq<Limit>
    ghost const home: nat -> nat

    /** Streams in which a client stored a record of the reserved type since their last delete or the last restart. */
    ghost var tainted: set<nat>

    constructor (limits: seq<Limit>, ghost home: nat -> nat)
      ensures Valid() && log == [] && this.limits == limits && this.home == home && tainted == {}
    {
      log, nexts, cutoffs, usage := [], map[], map[], map[];
      this.limits, this.home, tainted := limits, home, {};
    }

    ghost predicate Valid()
      reads this
    {
      && Numbered(log, nexts) && AtHome(log, home) && LimitsKept(limits, usage)
      && Counted(log, usage, home, tainted) && CutRight(log, cutoffs, tainted)
    }

    /** The tracked usage of the stream is what a recount of the stored records would give. */
    ghost predicate Exact(stream: nat)
      reads this
    {
      UsageAt(usage, HomeKey(home, stream)) == Recount(log, HomeKey(home, stream))
    }

    /** Storage: the next seq of the stream is taken even when the write then fails. */
    method Store(key: Key, bytes: nat, tombstone: bool, stored: bool) returns (num: nat)
      requires Numbered(log, nexts) && AtHome(log, home) && key.ns == home(key.stream)
      modifies this`log, this`nexts
      ensures num == NextOf(old(nexts), key.stream) && nexts == old(nexts)[key.stream := num + 1]
      ensures log == if stored then old(log) + [Record(key.ns, key.stream, num, bytes, tombstone)] else old(log)
      ensures Numbered(log, nexts) && AtHome(log, home)
    {
      num := NextOf(nexts, key.stream);
      nexts := nexts[key.stream := num + 1];
      assert forall stream :: NextOf(old(nexts), stream) <= NextOf(nexts, stream);
      if stored {
        log := log + [Record(key.ns, key.stream, num, bytes, tombstone)];
      }
    }

    /** One unchecked append with its bookkeeping. */
    method StoreAndCount(key: Key, bytes: nat, tombstone: bool, stored: bool)
      requires Valid() && key.ns == home(key.stream) && Within(limits, key, More(UsageAt(usage, key), 1, bytes))
      modifies this`log, this`nexts, this`usage, this`tainted
      ensures Valid()
      ensures log == if stored then old(log) + [Record(key.ns, key.stream, NextOf(old(nexts), key.stream), bytes, tombstone)] else old(log)
      ensures usage == if stored then old(usage)[key := More(UsageAt(old(usage), key), 1, bytes)] else old(usage)
      ensures tainted == if stored && tombstone then old(tainted) + {key.stream} else old(tainted)
    {
      var num := Store(key, bytes, tombstone, stored);
      if stored {
        var u := UsageAt(usage, key);
        usage := usage[key := Usage(u.records + 1, u.bytes + bytes)];
        CountedMore(old(log), log[|old(log)|], old(usage), cutoffs, home, tainted);
        LimitsMore(limits, old(usage), key, More(u, 1, bytes), usage);
        tainted := if tombstone then tainted + {key.stream} else tainted;
      }
    }

    /** A single append: refused exactly over a limit or when the write fails; a client's own tombstone taints the stream. */
    method Append(key: Key, bytes: nat, tombstone: bool, stored: bool) returns (ok: bool)
      requires Valid() && key.ns == home(key.stream)
      modifies this`log, this`nexts, this`usage, this`tainted
      ensures Valid()
      ensures ok <==> stored && Within(limits, key, More(UsageAt(old(usage), key), 1, bytes))
      ensures log == if ok then old(log) + [Record(key.ns, key.stream, NextOf(old(nexts), key.stream), bytes, tombstone)] else old(log)
      ensures tainted == if ok && tombstone then old(tainted) + {key.stream} else old(tainted)
    {
      var fits := CheckQuota(limits, key, UsageAt(usage, key), 1, bytes);
      if !fits {
        return false;
      }
      StoreAndCount(key, bytes, tombstone, stored);
      ok := stored;
    }

    /** Appends the requests one by one; the first failing write ends the batch. */
    method StoreAll(key: Key, requests: seq<Request>) returns (count: nat)
      requires Valid() && key.ns == home(key.stream)
      requires Within(limits, key, More(UsageAt(usage, key), |requests|, TotalBytes(requests)))
      modifies this`log, this`nexts, this`usage, this`tainted
      ensures Valid() && (count < |requests| ==> !requests[count].stored)
      ensures Batched(old(log), UsageAt(old(usage), key), old(tainted), log, UsageAt(usage, key), tainted, key, requests, count)
    {
      count := 0;
      ghost var u := UsageAt(usage, key);
      while count < |requests|
        invariant Valid() && Batched(old(log), u, old(tainted), log, UsageAt(usage, key), tainted, key, requests, count)
      {
        var r := requests[count];
        ghost var log', u', tainted' := log, UsageAt(usage, key), tainted;
        NextFits(limits, key, u, requests, count);
        StoreAndCount(key, r.bytes, r.tombstone, r.stored);
        if !r.stored {
          return;
        }
        BatchedMore(old(log), u, old(tainted), log', u', tainted', key, requests, count, log[|log'|]);
        count := count + 1;
      }
    }

    /** A batch is checked as a whole before anything of it is written. */
    method BatchAppend(key: Key, requests: seq<Request>) returns (ok: bool, count: nat)
      requires Valid() && key.ns == home(key.stream)
      modifies this`log, this`nexts, this`usage, this`tainted
      ensures Valid() && count <= |requests| && (ok ==> count == |requests|)
      ensures !Within(limits, key, More(UsageAt(old(usage), key), |requests|, TotalBytes(requests))) ==> !ok && count == 0
      ensures Batched(old(log), UsageAt(old(usage), key), old(tainted), log, UsageAt(usage, key), tainted, key, requests, count)
    {
      var fits := CheckQuota(limits, key, UsageAt(usage, key), |requests|, TotalBytes(requests));
      if !fits {
        return false, 0;
      }
      count := StoreAll(key, requests);
      ok := count == |requests|;
    }

    /** Deleting a stream stores a tombstone; everything before it is dead, the count starts over and a drift is repaired. */
    method DeleteStream(key: Key, stored: bool) returns (ok: bool, deleted: nat)
      requires Valid() && key.ns == home(key.stream)
      modifies this`log, this`nexts, this`cutoffs, this`usage, this`tainted
      ensures Valid() && ok == stored && deleted == UsageAt(old(usage), key).records
      ensures ok ==> log == old(log) + [Record(key.ns, key.stream, NextOf(old(nexts), key.stream), 0, true)]
      ensures ok ==> UsageAt(usage, key) == Usage(0, 0) == Recount(log, key) && tainted == old(tainted) - {key.stream}
      ensures ok ==> forall i :: 0 <= i < |old(log)| && old(log)[i].stream == key.stream ==> old(log)[i].num <= CutoffAt(cutoffs, key.stream)
      ensures !ok ==> log == old(log) && usage == old(usage) && cutoffs == old(cutoffs) && tainted == old(tainted)
    {
      deleted := UsageAt(usage, key).records;
      var num := Store(key, 0, true, stored);
      if !stored {
        return false, deleted;
      }
      cutoffs := cutoffs[key.stream := Max(CutoffAt(cutoffs, key.stream), num)];
      usage := usage[key := Usage(0, 0)];
      DeletedAll(old(log), log[|old(log)|], old(usage), old(cutoffs), home, tainted);
      LimitsMore(limits, old(usage), key, Usage(0, 0), usage);
      tainted := tainted - {key.stream};
      assert key == HomeKey(home, key.stream);
      ok := true;
    }

    /** The publisher meets a stored tombstone again: nothing changes unless a client stored it. */
    method Publish(i: nat)
      requires Valid() && i < |log|
      modifies this`cutoffs
      ensures Valid() && (log[i].stream !in tainted ==> forall stream :: CutoffAt(cutoffs, stream) == CutoffAt(old(cutoffs), stream))
    {
      var r := log[i];
      if r.tombstone {
        LastTombstoneIs(log, r.stream, NextOf(nexts, r.stream));
        cutoffs := cutoffs[r.stream := Max(CutoffAt(cutoffs, r.stream), r.num)];
      }
    }

    /** A restart recounts everything from the stored records: every stream is exact again, and those that were keep their count. */
    method Restart()
      requires Valid()
      modifies this`cutoffs, this`usage, this`tainted
      ensures Valid() && tainted == {}
      ensures forall stream :: Exact(stream)
      ensures forall stream :: stream !in old(tainted) ==> UsageAt(usage, HomeKey(home, stream)) == UsageAt(old(usage), HomeKey(home, stream))
      ensures forall stream :: NoMore(UsageAt(usage, HomeKey(home, stream)), UsageAt(old(usage), HomeKey(home, stream)))
    {
      cutoffs := RebuildCutoffs(log);
      usage := SeedUsage(log, cutoffs);
      tainted := {};
      RecountedWithin(limits, log, old(usage), usage, home, old(tainted));
    }
  }

  lemma RecountedWithin(limits: seq<Limit>, log: seq<Record>, usage: map<Key, Usage>, usage': map<Key, Usage>, home: nat -> nat, tainted: set<nat>)
    requires LimitsKept(limits, usage) && Counted(log, usage, home, tainted) && AtHome(log, home)
    requires forall key :: UsageAt(usage', key) == Recount(log, key)
    ensures LimitsKept(limits, usage')
  {
    forall key
      ensures Within(limits, key, UsageAt(usage', key))
    {
      assert Within(limits, key, UsageAt(usage, key));
      if key.ns == home(key.stream) {
        assert key == HomeKey(home, key.stream);
        WithinLess(limits, key, UsageAt(usage', key), UsageAt(usage, key));
      } else {
        SeedForeign(log, LastTombstone(log, key.stream), key);
      }
    }
  }

  /** The tracked usage equals the recount exactly in the streams without taint, and what is really live is within every limit in all of them. */
  lemma ExactIff(limits: seq<Limit>, log: seq<Record>, usage: map<Key, Usage>, home: nat -> nat, tainted: set<nat>, stream: nat)
    requires LimitsKept(limits, usage) && Counted(log, usage, home, tainted)
    ensures UsageAt(usage, HomeKey(home, stream)) == Recount(log, HomeKey(home, stream)) <==> stream !in tainted
    ensures Within(limits, HomeKey(home, stream), Recount(log, HomeKey(home, stream)))
  {
    var key := HomeKey(home, stream);
    assert Status(UsageAt(usage, key), Recount(log, key), stream in tainted);
    WithinLess(limits, key, Recount(log, key), UsageAt(usage, key));
  }

  datatype Op = DoAppend(key: Key, bytes: nat, tombstone: bool, stored: bool)
              | DoBatch(key: Key, requests: seq<Request>)
              | DoDelete(key: Key, stored: bool)
              | DoPublish(record: nat)
              | DoRestart

  /** An operation of which `stored` records were stored put one of the reserved type into the stream for a client. */
  predicate Taints(op: Op, stored: nat, stream: nat)
  {
    || (op.DoAppend? && op.key.stream == stream && op.tombstone && stored == 1)
    || (op.DoBatch? && op.key.stream == stream && stored <= |op.requests| && !NoTombstones(op.requests[..stored]))
  }

  /** A restart, or a delete of the stream whose tombstone was stored. */
  predicate Clears(op: Op, stored: nat, stream: nat)
  {
    op.DoRestart? || (op.DoDelete? && op.key.stream == stream && stored == 1)
  }

  /** Among the first `n` operations a client stored the reserved type, and nothing cleared the stream since. */
  ghost predicate Drifted(ops: seq<Op>, stored: seq<nat>, n: nat, stream: nat)
    requires n <= |ops| && n <= |stored|
  {
    exists i :: 0 <= i < n && Taints(ops[i], stored[i], stream) && forall j :: i < j < n ==> !Clears(ops[j], stored[j], stream)
  }

  lemma DriftedStep(ops: seq<Op>, stored: seq<nat>, n: nat, stream: nat)
    requires n < |ops| && n < |stored|
    ensures Drifted(ops, stored, n + 1, stream) <==>
            Taints(ops[n], stored[n], stream) || (Drifted(ops, stored, n, stream) && !Clears(ops[n], stored[n], stream))
  {
    if Taints(ops[n], stored[n], stream) {
      assert Drifted(ops, stored, n + 1, stream);
    } else if Drifted(ops, stored, n + 1, stream) {
      var i :| 0 <= i < n + 1 && Taints(ops[i], stored[i], stream) && forall j :: i < j < n + 1 ==> !Clears(ops[j], stored[j], stream);
      assert i < n;
    }
  }

  lemma DriftedSame(ops: seq<Op>, stored: seq<nat>, k: nat, n: nat, stream: nat)
    requires n <= |ops| && n <= |stored|
    ensures Drifted(ops, stored + [k], n, stream) <==> Drifted(ops, stored, n, stream)
  {
    if i :| 0 <= i < n && Taints(ops[i], stored[i], stream) && forall j :: i < j < n ==> !Clears(ops[j], stored[j], stream) {
      assert Taints(ops[i], (stored + [k])[i], stream);
    }
  }

  function Total(counts: seq<nat>): (n: nat)
  {
    if counts == [] then 0 else Total(counts[..|counts| - 1]) + counts[|counts| - 1]
  }

  /** One operation; `stored` tells how many records of it reached the log. */
  method Perform(service: Service, op: Op) returns (stored: nat)
    requires service.Valid() && (!op.DoRestart? && !op.DoPublish? ==> op.key.ns == service.home(op.key.stream))
    modifies service
    ensures service.Valid() && |service.log| == |old(service.log)| + stored
    ensures forall stream :: stream in service.tainted <==>
                               Taints(op, stored, stream) || (stream in old(service.tainted) && !Clears(op, stored, stream))
  {
    stored := 0;
    match op
    case DoAppend(key, bytes, tombstone, reaches) =>
      var ok := service.Append(key, bytes, tombstone, reaches);
      stored := if ok then 1 else 0;
    case DoBatch(key, requests) =>
      var ok;
      ok, stored := service.BatchAppend(key, requests);
    case DoDelete(key, reaches) =>
      var ok, deleted := service.DeleteStream(key, reaches);
      stored := if ok then 1 else 0;
    case DoPublish(record) =>
      if record < |service.log| {
        service.Publish(record);
      }
    case DoRestart =>
      service.Restart();
  }

  /**
   Over any sequence of appends, batches, deletes, publisher passes and restarts, with whatever event
   types: a stream's count is the recount if and only if no client stored the reserved type in it since
   its last delete or the last restart, and what is live stays within every limit.
   */
  method Replay(limits: seq<Limit>, ops: seq<Op>, ghost home: nat -> nat) returns (service: Service, stored: seq<nat>)
    requires forall i :: 0 <= i < |ops| && !ops[i].DoRestart? && !ops[i].DoPublish? ==> ops[i].key.ns == home(ops[i].key.stream)
    ensures service.Valid() && service.limits == limits && service.home == home
    ensures |stored| == |ops| && |service.log| == Total(stored)
    ensures forall stream :: service.Exact(stream) <==> !Drifted(ops, stored, |ops|, stream)
    ensures forall stream :: Within(limits, HomeKey(home, stream), Recount(service.log, HomeKey(home, stream)))
  {
    service := new Service(limits, home);
    stored := [];
    for i := 0 to |ops|
      invariant fresh(service) && service.Valid() && service.limits == limits && service.home == home
      invariant |stored| == i && |service.log| == Total(stored)
      invariant forall stream :: stream in service.tainted <==> Drifted(ops, stored, i, stream)
    {
      var n := Perform(service, ops[i]);
      ghost var before := stored;
      stored := stored + [n];
      assert stored[..i] == before;
      forall stream
        ensures stream in service.tainted <==> Drifted(ops, stored, i + 1, stream)
      {
        DriftedSame(ops, before, n, i, stream);
        DriftedStep(ops, stored, i, stream);
      }
    }
    forall stream
      ensures service.Exact(stream) <==> !Drifted(ops, stored, |ops|, stream)
      ensures Within(limits, HomeKey(home, stream), Recount(service.log, HomeKey(home, stream)))
    {
      ExactIff(limits, service.log, service.usage, home, service.tainted, stream);
    }
  }

  /** A client appends one record of the reserved type to an empty stream: one record is counted and none is live. */
  method Drift() returns (service: Service)
    ensures service.Valid() && !service.Exact(7)
  {
    service := new Service([], stream => 0);
    var ok := service.Append(Key(0, 7), 10, true, true);
    ExactIff([], service.log, service.usage, service.home, service.tainted, 7);
  }
}
