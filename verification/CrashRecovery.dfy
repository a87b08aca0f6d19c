/**
 From the committer's files through a crash to what recovery finds in the last segment.
 */
module CrashRecovery {
  import opened Bytes
  import opened RecordIds
  import opened RecordFormat
  import Committer
  import Recovery
  import SegmentHeaders

  /** The records on disk carry the ids of the locals the committer wrote. */
  ghost predicate Encodes(locals: seq<nat>, rs: seq<Record>, shard: nat, bits: nat)
  {
    && |rs| == |locals| && shard < Pow2(bits)
    && forall i :: 0 <= i < |rs| ==> Storable(rs[i]) && rs[i].id == GlobalId(shard, locals[i], bits) && GlobalId(shard, locals[i] + 1, bits) < U64_SIZE
  }

  predicate Consecutive(locals: seq<nat>)
  {
    forall i :: 0 < i < |locals| ==> locals[i] == locals[i - 1] + 1
  }

  /** How many leading locals follow each other. */
  function RunLength(locals: seq<nat>): (n: nat)
    ensures n <= |locals| && Consecutive(locals[..n])
    ensures n < |locals| ==> n > 0 && locals[n] != locals[n - 1] + 1
  {
    if |locals| <= 1 then |locals|
    else
      var last := |locals| - 1;
      var n := RunLength(locals[..last]);
      if n == last && locals[last] == locals[last - 1] + 1 then
        assert locals[..last] == locals[..last][..n];
        last + 1
      else
        assert locals[..last][..n] == locals[..n];
        n
  }

  lemma InSequence(locals: seq<nat>, rs: seq<Record>, shard: nat, base: nat, bits: nat, n: nat)
    requires Encodes(locals, rs, shard, bits) && n <= |locals| && Consecutive(locals[..n])
    requires bits == 0 && rs != [] ==> base == rs[0].id
    ensures Recovery.WellFormed(rs[..n], base, bits)
  {
    forall i | 0 < i < n
      ensures rs[..n][i].id == rs[..n][i - 1].id + Pow2(bits)
    {
      assert locals[..n][i] == locals[..n][i - 1] + 1;
      Recovery.NextId(shard, locals[i - 1], bits);
    }
  }

  lemma OutOfSequence(locals: seq<nat>, rs: seq<Record>, shard: nat, base: nat, bits: nat, crc: seq<Byte> -> Word32, n: nat)
    requires Encodes(locals, rs, shard, bits) && 0 < n < |locals| && locals[n] != locals[n - 1] + 1
    ensures rs[n].id != Recovery.After(rs[..n], base, bits, crc).expected
  {
    Recovery.NextId(shard, locals[n - 1], bits);
    assert rs[..n][n - 1] == rs[n - 1];
    Small(rs[n - 1].id + Pow2(bits));
    DecodeGlobalId(shard, locals[n], bits);
    DecodeGlobalId(shard, locals[n - 1] + 1, bits);
  }

  lemma Small(x: nat)
    requires x < U64_SIZE
    ensures x % U64_SIZE == x
  {
  }

  /** Recovery of the last segment keeps exactly its leading run of consecutive records, none under a wrong header. */
  lemma RecoversRun(header: seq<Byte>, locals: seq<nat>, rs: seq<Record>, shard: nat, base: nat, bits: nat, crc: seq<Byte> -> Word32)
    requires |header| == Recovery.HEADER_SIZE && Encodes(locals, rs, shard, bits)
    ensures var n := if Recovery.Based(rs, base, bits) then RunLength(locals) else 0;
            Recovery.Final(header + Recovery.Body(rs, crc), Recovery.Start(base), bits, crc) == Recovery.After(rs[..n], base, bits, crc)
  {
    if Recovery.Based(rs, base, bits) {
      var n := RunLength(locals);
      InSequence(locals, rs, shard, base, bits, n);
      if n < |locals| {
        OutOfSequence(locals, rs, shard, base, bits, crc, n);
      }
      Recovery.ScanKeepsRun(header, rs, n, base, bits, crc);
    } else {
      assert rs[..0] == [];
      Recovery.ScanKeepsRun(header, rs, 0, base, bits, crc);
    }
  }

  /** Everything in the last segment comes back exactly when its records are consecutive and begin where the header says. */
  lemma RecoversAllIff(header: seq<Byte>, locals: seq<nat>, rs: seq<Record>, shard: nat, base: nat, bits: nat, crc: seq<Byte> -> Word32)
    requires |header| == Recovery.HEADER_SIZE && Encodes(locals, rs, shard, bits)
    ensures Recovery.Final(header + Recovery.Body(rs, crc), Recovery.Start(base), bits, crc).count == |rs| <==>
            Consecutive(locals) && Recovery.Based(rs, base, bits)
  {
    RecoversRun(header, locals, rs, shard, base, bits, crc);
    assert locals[..|locals|] == locals;
    assert RunLength(locals) == |locals| <==> Consecutive(locals);
  }

  /** Without a late failure the last segment is consecutive, and so is whatever a crash keeps of it. */
  lemma {:induction false} ExactIsConsecutive(sh: Committer.Shard, kept: nat)
    requires Committer.Exact(sh) && sh.mgr.segments != [] && kept <= |sh.mgr.segments[|sh.mgr.segments| - 1].records|
    ensures Consecutive(sh.mgr.segments[|sh.mgr.segments| - 1].records[..kept])
  {
    var segments := sh.mgr.segments;
    var last := |segments| - 1;
    var locals, before := segments[last].records, |Committer.Written(segments[..last])|;
    assert Committer.Written(segments) == Committer.Written(segments[..last]) + locals;
    forall i | 0 < i < kept
      ensures locals[..kept][i] == locals[..kept][i - 1] + 1
    {
      assert Committer.Written(segments)[before + i] == locals[i] && Committer.Written(segments)[before + i - 1] == locals[i - 1];
    }
  }

  /** The run forgets no rolled segment of shard `s` up to step `n`, and no batch of the shard failed after its write. */
  ghost predicate Undamaged(run: seq<seq<Committer.Shard>>, events: seq<Committer.Event>, n: nat, s: nat)
  {
    && Committer.IsRun(run, events) && n < |run| && s < |run[0]|
    && Committer.NeverLate(events, n, s)
    && forall i :: 0 <= i < n ==> Committer.SparesAt(run[i], events[i], s)
  }

  lemma UndamagedShard(run: seq<seq<Committer.Shard>>, events: seq<Committer.Event>, n: nat, s: nat)
    requires Undamaged(run, events, n, s)
    ensures s < |run[n]| && Committer.Inv(run[n][s]) && Committer.Exact(run[n][s])
  {
    Committer.ExactIff(run, events, n, s);
    Committer.RunKeepsInv(run, events, n, s);
  }

  /** What is left in the last segment. */
  function LastKept(segments: seq<Committer.Segment>, kept: seq<nat>): (locals: seq<nat>)
    requires Committer.CrashOutcome(segments, kept) && segments != []
  {
    segments[|segments| - 1].records[..kept[|segments| - 1]]
  }

  /** The scan of the file does not cut into `rs`. */
  ghost predicate Recovers(header: seq<Byte>, rs: seq<Record>, tail: seq<Byte>, base: nat, bits: nat, crc: seq<Byte> -> Word32)
    requires |header| == Recovery.HEADER_SIZE
  {
    var file := header + Recovery.Body(rs, crc) + tail;
    var end := Recovery.Final(file, Recovery.Start(base), bits, crc).lastValid;
    |header| + |Recovery.Body(rs, crc)| <= end <= |file| && header + Recovery.Body(rs, crc) <= file[..end]
  }

  /** Consecutive records survive, whatever torn or garbled bytes follow them, exactly under a header that names the first. */
  lemma RecoversIff(header: seq<Byte>, locals: seq<nat>, rs: seq<Record>, tail: seq<Byte>, shard: nat, base: nat, bits: nat, crc: seq<Byte> -> Word32)
    requires |header| == Recovery.HEADER_SIZE && Encodes(locals, rs, shard, bits) && Consecutive(locals)
    ensures Recovers(header, rs, tail, base, bits, crc) <==> Recovery.Based(rs, base, bits)
  {
    if Recovery.Based(rs, base, bits) {
      assert locals[..|rs|] == locals && rs[..|rs|] == rs;
      InSequence(locals, rs, shard, base, bits, |rs|);
      Recovery.GarbageTailKeepsRecords(header, rs, base, bits, crc, tail);
    } else {
      WrongHeaderCuts(header, rs, tail, base, crc);
    }
  }

  lemma WrongHeaderCuts(header: seq<Byte>, rs: seq<Record>, tail: seq<Byte>, base: nat, crc: seq<Byte> -> Word32)
    requires |header| == Recovery.HEADER_SIZE && rs != [] && Storable(rs[0]) && rs[0].id != base
    ensures Recovery.Final(header + Recovery.Body(rs, crc) + tail, Recovery.Start(base), 0, crc) == Recovery.Start(base)
    ensures |Recovery.Body(rs, crc)| > 0
  {
    var r := rs[0];
    var more := Recovery.BodySplit(rs, 0, crc);
    assert rs[..0] == [];
    Recovery.ReusedIdsDiscarded(header, r, more + tail, base, crc);
    var bytes := Serialize(r, crc);
    LengthField(r, crc, []);
    assert Recovery.Body(rs, crc) == bytes + more;
    Recovery.Regroup(header, bytes, more, tail);
  }

  /** The active segment's header is true of what a crash keeps exactly if it is true, unless there is nothing to compare. */
  lemma BasedIff(sh: Committer.Shard, kept: seq<nat>, rs: seq<Record>, s: nat, bits: nat)
    requires Committer.Fits(sh.mgr) && Committer.CrashOutcome(sh.mgr.segments, kept)
    requires Encodes(LastKept(sh.mgr.segments, kept), rs, s, bits)
    ensures Recovery.Based(rs, GlobalId(s, SegmentHeaders.Active(sh).base, bits), bits) <==>
            rs == [] || bits > 0 || SegmentHeaders.HeaderTrue(sh)
  {
    var base := SegmentHeaders.Active(sh).base;
    if rs != [] {
      var first := SegmentHeaders.Active(sh).records[0];
      assert LastKept(sh.mgr.segments, kept)[0] == first;
      DecodeGlobalId(s, base, bits);
      DecodeGlobalId(s, first, bits);
    }
  }

  lemma ShardRecoversIff(sh: Committer.Shard, kept: seq<nat>, header: seq<Byte>, rs: seq<Record>, tail: seq<Byte>, s: nat, bits: nat, crc: seq<Byte> -> Word32)
    requires Committer.Fits(sh.mgr) && Committer.Exact(sh) && Committer.CrashOutcome(sh.mgr.segments, kept)
    requires |header| == Recovery.HEADER_SIZE && Encodes(LastKept(sh.mgr.segments, kept), rs, s, bits)
    ensures Recovers(header, rs, tail, GlobalId(s, SegmentHeaders.Active(sh).base, bits), bits, crc) <==>
            rs == [] || bits > 0 || SegmentHeaders.HeaderTrue(sh)
  {
    ExactIsConsecutive(sh, kept[|kept| - 1]);
    RecoversIff(header, LastKept(sh.mgr.segments, kept), rs, tail, s, GlobalId(s, SegmentHeaders.Active(sh).base, bits), bits, crc);
    BasedIff(sh, kept, rs, s, bits);
  }

  /**
   End to end: in any undamaged run, after a crash at any point that leaves `kept` whole records of
   each segment and any bytes `tail` after them in the last one, every durable record of the shard `sh`
   is in a rolled segment or in the last; and a recovery of the last segment cuts off nothing of it if
   and only if nothing is left in it, there are other shards, or the last roll took no stale segment.
   */
  lemma CrashThenRecover(run: seq<seq<Committer.Shard>>, events: seq<Committer.Event>, n: nat, s: nat, sh: Committer.Shard,
                         kept: seq<nat>, l: nat, header: seq<Byte>, rs: seq<Record>, tail: seq<Byte>, bits: nat, crc: seq<Byte> -> Word32)
    returns (j: nat, p: nat)
    requires Undamaged(run, events, n, s) && s < |run[n]| && run[n][s] == sh && sh.start <= l < sh.durable
    requires Committer.Fits(sh.mgr) && Committer.CrashOutcome(sh.mgr.segments, kept)
    requires |header| == Recovery.HEADER_SIZE && Encodes(LastKept(sh.mgr.segments, kept), rs, s, bits)
    ensures j < |kept| && p < kept[j] <= |sh.mgr.segments[j].records| && sh.mgr.segments[j].records[p] == l
    ensures j == |kept| - 1 ==> p < |rs| && rs[p].id == GlobalId(s, l, bits)
    ensures Recovers(header, rs, tail, GlobalId(s, SegmentHeaders.Active(sh).base, bits), bits, crc) <==>
            rs == [] || bits > 0 || SegmentHeaders.RolledFresh(run, events, n, s)
  {
    UndamagedShard(run, events, n, s);
    j, p := Committer.CrashKeepsDurable(sh, kept, l);
    SegmentHeaders.HeaderTrueIff(run, events, n, s);
    ShardRecoversIff(sh, kept, header, rs, tail, s, bits, crc);
  }

  // ── Where the shard resumes after the crash ────────────────────────────────

  /** Every record is of shard `s`, with a local below `bound`. */
  ghost predicate AllBelow(rs: seq<Record>, s: nat, bits: nat, bound: nat)
  {
    forall i :: 0 <= i < |rs| ==> Decode(rs[i].id, bits).0 == s && Recovery.Local(rs[i], bits) < bound
  }

  lemma {:induction false} FlattenBelow(segs: seq<seq<Record>>, s: nat, bits: nat, bound: nat)
    requires forall j :: 0 <= j < |segs| ==> AllBelow(segs[j], s, bits, bound)
    ensures AllBelow(Recovery.Flatten(segs), s, bits, bound)
  {
    if segs != [] {
      FlattenBelow(segs[..|segs| - 1], s, bits, bound);
    }
  }

  lemma EncodedBelow(locals: seq<nat>, rs: seq<Record>, s: nat, bits: nat, bound: nat)
    requires Encodes(locals, rs, s, bits) && forall i :: 0 <= i < |locals| ==> locals[i] < bound
    ensures AllBelow(rs, s, bits, bound)
  {
    forall i | 0 <= i < |rs|
      ensures Decode(rs[i].id, bits) == (s, locals[i])
    {
      DecodeGlobalId(s, locals[i], bits);
    }
  }

  /** A record of the last segment is beyond everything written before it. */
  lemma WrittenBefore(sh: Committer.Shard, j: nat, p: nat, q: nat)
    requires Committer.Exact(sh) && j < |sh.mgr.segments| && p < |sh.mgr.segments[j].records|
    requires q < |sh.mgr.segments[|sh.mgr.segments| - 1].records| && (j == |sh.mgr.segments| - 1 ==> p <= q)
    ensures sh.mgr.segments[j].records[p] <= sh.mgr.segments[|sh.mgr.segments| - 1].records[q] < sh.committed
  {
    var segments, last := sh.mgr.segments, |sh.mgr.segments| - 1;
    var written, before := Committer.Written(segments), |Committer.Written(segments[..last])|;
    assert written == Committer.Written(segments[..last]) + segments[last].records;
    assert written[before + q] == segments[last].records[q];
    if j == last {
      assert written[before + p] == segments[last].records[p];
    } else {
      var i := Committer.WrittenHas(segments[..last], j, p);
      assert written[i] == segments[j].records[p];
    }
  }

  /** What is left of the segments, in the ids of the shard. */
  ghost predicate LeftOf(sh: Committer.Shard, kept: seq<nat>, now: seq<seq<Record>>, s: nat, bits: nat)
  {
    && Committer.CrashOutcome(sh.mgr.segments, kept) && |now| == |kept|
    && forall j :: 0 <= j < |kept| ==> Encodes(sh.mgr.segments[j].records[..kept[j]], now[j], s, bits)
  }

  lemma LeftBelow(sh: Committer.Shard, kept: seq<nat>, now: seq<seq<Record>>, s: nat, bits: nat, bound: nat)
    requires LeftOf(sh, kept, now, s, bits)
    requires forall j, p :: 0 <= j < |kept| && 0 <= p < kept[j] ==> sh.mgr.segments[j].records[p] < bound
    ensures forall j :: 0 <= j < |now| ==> AllBelow(now[j], s, bits, bound)
  {
    forall j | 0 <= j < |now|
      ensures AllBelow(now[j], s, bits, bound)
    {
      EncodedBelow(sh.mgr.segments[j].records[..kept[j]], now[j], s, bits, bound);
    }
  }

  /** The directory: files of earlier sessions, what the crash left, and the prepared segment if its file is there. */
  function Directory(older: seq<seq<Record>>, now: seq<seq<Record>>, prepared: bool): (files: Recovery.Files)
  {
    Recovery.Files(true, older + now + if prepared then [[]] else [])
  }

  lemma DirectoryBelow(older: seq<seq<Record>>, now: seq<seq<Record>>, prepared: bool, s: nat, bits: nat, bound: nat)
    requires forall j :: 0 <= j < |older| ==> AllBelow(older[j], s, bits, bound)
    requires forall j :: 0 <= j < |now| ==> AllBelow(now[j], s, bits, bound)
    ensures AllBelow(Recovery.Flatten(Directory(older, now, prepared).segs), s, bits, bound)
  {
    FlattenBelow(Directory(older, now, prepared).segs, s, bits, bound);
  }

  lemma RaiseBound(segs: seq<seq<Record>>, s: nat, bits: nat, low: nat, high: nat)
    requires low <= high && forall j :: 0 <= j < |segs| ==> AllBelow(segs[j], s, bits, low)
    ensures forall j :: 0 <= j < |segs| ==> AllBelow(segs[j], s, bits, high)
  {
  }

  /** With a record left in the active segment, its newest is the newest of all. */
  lemma NewestLeft(sh: Committer.Shard, kept: seq<nat>, older: seq<seq<Record>>, now: seq<seq<Record>>, s: nat, bits: nat, newest: nat)
    requires Committer.Inv(sh) && Committer.Exact(sh) && LeftOf(sh, kept, now, s, bits) && kept[|kept| - 1] > 0
    requires newest == SegmentHeaders.Active(sh).records[kept[|kept| - 1] - 1]
    requires forall j :: 0 <= j < |older| ==> AllBelow(older[j], s, bits, sh.oldest)
    ensures AllBelow(Recovery.Flatten(Directory(older, now, false).segs), s, bits, newest + 1)
  {
    forall j, p | 0 <= j < |kept| && 0 <= p < kept[j]
      ensures sh.mgr.segments[j].records[p] < newest + 1
    {
      WrittenBefore(sh, j, p, kept[|kept| - 1] - 1);
    }
    LeftBelow(sh, kept, now, s, bits, newest + 1);
    OldestFirst(sh, |kept| - 1, kept[|kept| - 1] - 1);
    RaiseBound(older, s, bits, sh.oldest, newest + 1);
    DirectoryBelow(older, now, false, s, bits, newest + 1);
  }

  lemma OldestFirst(sh: Committer.Shard, j: nat, p: nat)
    requires Committer.Exact(sh) && j < |sh.mgr.segments| && p < |sh.mgr.segments[j].records|
    ensures sh.oldest <= sh.mgr.segments[j].records[p] < sh.committed
  {
    var i := Committer.WrittenHas(sh.mgr.segments, j, p);
  }

  lemma AllLeftBelow(sh: Committer.Shard, kept: seq<nat>, older: seq<seq<Record>>, now: seq<seq<Record>>, prepared: bool, s: nat, bits: nat)
    requires Committer.Inv(sh) && Committer.Exact(sh) && LeftOf(sh, kept, now, s, bits)
    requires forall j :: 0 <= j < |older| ==> AllBelow(older[j], s, bits, sh.oldest)
    ensures AllBelow(Recovery.Flatten(Directory(older, now, prepared).segs), s, bits, sh.committed)
  {
    forall j, p | 0 <= j < |kept| && 0 <= p < kept[j]
      ensures sh.mgr.segments[j].records[p] < sh.committed
    {
      OldestFirst(sh, j, p);
    }
    LeftBelow(sh, kept, now, s, bits, sh.committed);
    RaiseBound(older, s, bits, sh.oldest, sh.committed);
    DirectoryBelow(older, now, prepared, s, bits, sh.committed);
  }

  lemma LastLeft(sh: Committer.Shard, kept: seq<nat>, older: seq<seq<Record>>, now: seq<seq<Record>>, prepared: bool, s: nat, bits: nat)
    requires Committer.Fits(sh.mgr) && Committer.Exact(sh) && LeftOf(sh, kept, now, s, bits)
    ensures var files := Directory(older, now, prepared);
            && Recovery.LastOf(files) == (if prepared then [] else now[|now| - 1])
            && Recovery.LastSound(files, bits)
  {
    var rs, locals := now[|now| - 1], LastKept(sh.mgr.segments, kept);
    if rs != [] {
      ExactIsConsecutive(sh, kept[|kept| - 1]);
      assert locals[..|rs|] == locals && rs[..|rs|] == rs;
      InSequence(locals, rs, s, rs[0].id, bits, |rs|);
    }
  }

  lemma ShardReuseIff(sh: Committer.Shard, kept: seq<nat>, older: seq<seq<Record>>, now: seq<seq<Record>>, prepared: bool,
                      header: seq<Byte>, base: nat, s: nat, bits: nat, crc: seq<Byte> -> Word32)
    requires Committer.Inv(sh) && Committer.Exact(sh) && LeftOf(sh, kept, now, s, bits) && s < Pow2(bits) && |header| == Recovery.HEADER_SIZE
    requires forall j :: 0 <= j < |older| ==> AllBelow(older[j], s, bits, sh.oldest)
    requires !prepared ==> base == GlobalId(s, SegmentHeaders.Active(sh).base, bits)
    ensures var files := Directory(older, now, prepared);
            Recovery.Reuses(files.segs, s, Recovery.OpenLocal(files, header, base, bits, crc), bits) <==>
            && Recovery.Flatten(files.segs) != []
            && (prepared || kept[|kept| - 1] == 0 || (bits == 0 && !SegmentHeaders.HeaderTrue(sh)))
  {
    var files := Directory(older, now, prepared);
    LastLeft(sh, kept, older, now, prepared, s, bits);
    AllLeftBelow(sh, kept, older, now, prepared, s, bits);
    Recovery.AnyReuseIff(files, header, s, base, bits, crc);
    if !prepared {
      BasedIff(sh, kept, now[|now| - 1], s, bits);
      if kept[|kept| - 1] > 0 {
        var newest := SegmentHeaders.Active(sh).records[kept[|kept| - 1] - 1];
        DecodeGlobalId(s, newest, bits);
        NewestLeft(sh, kept, older, now, s, bits, newest);
      }
    }
  }

  /**
   After a crash at any point of any undamaged run, in a directory that has segment 1: opening the shard
   reuses ids exactly when something is stored and the file of a prepared segment is there, or nothing
   is left in the active segment, or there are no other shards and the last roll took a stale segment.
   */
  lemma CrashReuseIff(run: seq<seq<Committer.Shard>>, events: seq<Committer.Event>, n: nat, s: nat, sh: Committer.Shard, kept: seq<nat>,
                      older: seq<seq<Record>>, now: seq<seq<Record>>, prepared: bool, header: seq<Byte>, base: nat, bits: nat, crc: seq<Byte> -> Word32)
    requires Undamaged(run, events, n, s) && s < |run[n]| && run[n][s] == sh && Committer.Fits(sh.mgr)
    requires LeftOf(sh, kept, now, s, bits) && s < Pow2(bits) && |header| == Recovery.HEADER_SIZE
    requires forall j :: 0 <= j < |older| ==> AllBelow(older[j], s, bits, sh.oldest)
    requires prepared ==> sh.mgr.prepared.Some? && base == GlobalId(s, sh.mgr.prepared.value, bits)
    requires !prepared ==> base == GlobalId(s, SegmentHeaders.Active(sh).base, bits)
    ensures var files := Directory(older, now, prepared);
            Recovery.Reuses(files.segs, s, Recovery.OpenLocal(files, header, base, bits, crc), bits) <==>
            && Recovery.Flatten(files.segs) != []
            && (prepared || kept[|kept| - 1] == 0 || (bits == 0 && !SegmentHeaders.RolledFresh(run, events, n, s)))
  {
    UndamagedShard(run, events, n, s);
    SegmentHeaders.HeaderTrueIff(run, events, n, s);
    ShardReuseIff(sh, kept, older, now, prepared, header, base, s, bits, crc);
  }

  // ── Failing runs ───────────────────────────────────────────────────────────

  /** An ordinary roll onto a stale segment: everything is durable, the crash loses nothing, and recovery cuts off record 2. */
  lemma StaleHeaderLosesDurable(header: seq<Byte>, rs: seq<Record>, crc: seq<Byte> -> Word32)
    returns (run: seq<seq<Committer.Shard>>, events: seq<Committer.Event>)
    requires |header| == Recovery.HEADER_SIZE && Encodes([2], rs, 0, 0)
    ensures Undamaged(run, events, |events|, 0) && |run[|events|]| == 1
    ensures var sh := run[|events|][0];
            && sh.durable == 3 && sh.mgr.segments == [Committer.Segment(0, [0, 1], 2), Committer.Segment(1, [2], 1)]
            && Recovery.Final(header + Recovery.Body(rs, crc), Recovery.Start(1), 0, crc) == Recovery.Start(1)
  {
    run, events := SegmentHeaders.StaleRun();
    Committer.SameShards(run, events, |events|);
    assert rs[0].id == GlobalId(0, 2, 0) == 2;
    WrongHeaderCuts(header, rs, [], 1, crc);
    assert header + Recovery.Body(rs, crc) + [] == header + Recovery.Body(rs, crc);
  }

  /**
   A batch that fails after its write is written again; the sync then succeeds and records 0 and 1 are
   durable.  Recovery stops at the repeated record: record 1 is gone although the crash lost nothing.
   */
  lemma LateFailureLosesDurable(header: seq<Byte>, rs: seq<Record>, crc: seq<Byte> -> Word32)
    returns (run: seq<seq<Committer.Shard>>, events: seq<Committer.Event>)
    requires |header| == Recovery.HEADER_SIZE && Encodes([0, 0, 1], rs, 0, 0)
    ensures Committer.IsRun(run, events) && |run[|events|]| == 1
    ensures var sh := run[|events|][0];
            && Committer.Inv(sh) && sh.durable == 2 && sh.mgr.segments == [Committer.Segment(0, [0, 0, 1], 3)]
            && Recovery.Final(header + Recovery.Body(rs, crc), Recovery.Start(0), 0, crc) == Recovery.After(rs[..1], 0, 0, crc)
  {
    run, events := Committer.LateFailureSynced();
    assert rs[0].id == 0;
    RecoversRun(header, [0, 0, 1], rs, 0, 0, 0, crc);
    assert RunLength([0, 0, 1]) == 1 by {
      assert [0, 0, 1][..2] == [0, 0] && [0, 0][..1] == [0];
    }
  }
}
