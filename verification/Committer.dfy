/**
 The committer: ring buffers to segment files, and the cursors that say how far it got.

 Per shard, records `oldest .. committed` are in the segment files at hand, those from before this
 session in the segment it was opened on, and records below `durable` are claimed to be on stable
 storage.  A rolled segment waits in a pending list until it is synced.
 */
module Committer {
  import opened Arith
  import opened Wrappers

  function Range(lo: nat, hi: nat): (s: seq<nat>)
    ensures lo <= hi ==> |s| == hi - lo
    ensures forall i :: 0 <= i < |s| ==> s[i] == lo + i
  {
    if lo >= hi then [] else seq(hi - lo, i requires 0 <= i < hi - lo => lo + i)
  }

  lemma RangeAppend(a: nat, b: nat, c: nat)
    requires a <= b <= c
    ensures Range(a, b) + Range(b, c) == Range(a, c)
  {
  }

  // ── Segment files of one shard ─────────────────────────────────────────────

  /** Local sequences in file order; the first `synced` of them are on stable storage; `base` is the one its header names as first. */
  datatype Segment = Segment(base: nat, records: seq<nat>, synced: nat)

  /**
   The last segment is active; `pending` lists rolled segments still to be synced; `prepared` is the
   base in the header of the next segment, once its file has been created ahead of the roll.
   */
  datatype Manager = Manager(segments: seq<Segment>, pending: seq<nat>, prepared: Option<nat>)

  predicate Fits(m: Manager)
  {
    && m.segments != []
    && (forall j :: 0 <= j < |m.segments| ==> m.segments[j].synced <= |m.segments[j].records|)
    && (forall k :: 0 <= k < |m.pending| ==> m.pending[k] < |m.segments| - 1)
  }

  ghost function Written(segments: seq<Segment>): (records: seq<nat>)
  {
    if segments == [] then [] else Written(segments[..|segments| - 1]) + segments[|segments| - 1].records
  }

  predicate FullySynced(seg: Segment)
  {
    seg.synced == |seg.records|
  }

  /** Every rolled segment is synced or still known to need it. */
  ghost predicate NothingForgotten(m: Manager)
    requires Fits(m)
  {
    forall j :: 0 <= j < |m.segments| - 1 ==> FullySynced(m.segments[j]) || j in m.pending
  }

  function Append(m: Manager, lo: nat, hi: nat): (m': Manager)
    requires Fits(m)
    ensures Fits(m')
  {
    var last := |m.segments| - 1;
    m.(segments := m.segments[last := m.segments[last].(records := m.segments[last].records + Range(lo, hi))])
  }

  /** After a write the next segment may be created ahead, for the record to come. */
  function Prepare(m: Manager, next: nat, prepares: bool): (m': Manager)
  {
    if prepares && m.prepared.None? then m.(prepared := Some(next)) else m
  }

  /** The prepared segment is taken as it is; without one a segment for the record to come is created. */
  function Roll(m: Manager, next: nat): (m': Manager)
    requires Fits(m)
    ensures Fits(m')
  {
    var base := if m.prepared.Some? then m.prepared.value else next;
    Manager(m.segments + [Segment(base, [], 0)], m.pending + [|m.segments| - 1], None)
  }

  function Mark(segments: seq<Segment>, j: nat): (r: seq<Segment>)
    requires j < |segments|
  {
    segments[j := segments[j].(synced := |segments[j].records|)]
  }

  /** Same files; at least as much of each is on stable storage. */
  ghost predicate MoreSynced(a: seq<Segment>, b: seq<Segment>)
  {
    && |a| == |b|
    && forall j :: 0 <= j < |a| ==>
                     a[j].base == b[j].base && a[j].records == b[j].records && (b[j].synced == a[j].synced || FullySynced(b[j]))
  }

  lemma {:induction false} WrittenSame(a: seq<Segment>, b: seq<Segment>)
    requires MoreSynced(a, b)
    ensures Written(a) == Written(b)
  {
    if a != [] {
      var last := |a| - 1;
      assert a[last].records == b[last].records;
      WrittenSame(a[..last], b[..last]);
    }
  }

  lemma WrittenAppend(m: Manager, lo: nat, hi: nat)
    requires Fits(m)
    ensures Written(Append(m, lo, hi).segments) == Written(m.segments) + Range(lo, hi)
  {
    var last := |m.segments| - 1;
    assert Append(m, lo, hi).segments[..last] == m.segments[..last];
  }

  lemma WrittenRoll(m: Manager, next: nat)
    requires Fits(m)
    ensures Written(Roll(m, next).segments) == Written(m.segments)
  {
    assert Roll(m, next).segments[..|m.segments|] == m.segments;
  }

  /**
   Syncs the pending segments in order and then the active one.  The pending list is emptied first;
   the first failing sync (`failAt`, counted over pending then active) ends the attempt.
   */
  method SyncAll(m: Manager, failAt: nat) returns (m': Manager, ok: bool)
    requires Fits(m)
    ensures Fits(m') && m'.pending == [] && m'.prepared == m.prepared && MoreSynced(m.segments, m'.segments)
    ensures ok <==> failAt > |m.pending|
    ensures ok ==> FullySynced(m'.segments[|m'.segments| - 1])
    ensures forall k :: 0 <= k < |m.pending| && k < failAt ==> FullySynced(m'.segments[m.pending[k]])
    ensures forall j :: 0 <= j < |m.segments| - 1 && j !in m.pending[..Min(failAt, |m.pending|)] ==> m'.segments[j] == m.segments[j]
  {
    var segments := m.segments;
    for k := 0 to |m.pending|
      invariant k <= failAt
      invariant Fits(m.(segments := segments)) && MoreSynced(m.segments, segments)
      invariant forall i :: 0 <= i < k ==> FullySynced(segments[m.pending[i]])
      invariant forall j :: 0 <= j < |m.segments| && j !in m.pending[..k] ==> segments[j] == m.segments[j]
    {
      if k == failAt {
        return Manager(segments, [], m.prepared), false;
      }
      assert m.pending[..k + 1] == m.pending[..k] + [m.pending[k]];
      segments := Mark(segments, m.pending[k]);
    }
    assert m.pending[..|m.pending|] == m.pending;
    if failAt == |m.pending| {
      return Manager(segments, [], m.prepared), false;
    }
    return Manager(Mark(segments, |segments| - 1), [], m.prepared), true;
  }

  /** Idle clean-up: every pending sync is tried once, failures are dropped. */
  method DrainPending(m: Manager, fails: set<nat>) returns (m': Manager)
    requires Fits(m)
    ensures Fits(m') && m'.pending == [] && m'.prepared == m.prepared && MoreSynced(m.segments, m'.segments)
    ensures forall k :: 0 <= k < |m.pending| && k !in fails ==> FullySynced(m'.segments[m.pending[k]])
    ensures forall j :: 0 <= j < |m.segments| && (forall k :: 0 <= k < |m.pending| && m.pending[k] == j ==> k in fails) ==>
                          m'.segments[j] == m.segments[j]
  {
    var segments := m.segments;
    for k := 0 to |m.pending|
      invariant Fits(m.(segments := segments)) && MoreSynced(m.segments, segments)
      invariant forall i :: 0 <= i < k && i !in fails ==> FullySynced(segments[m.pending[i]])
      invariant forall j :: 0 <= j < |m.segments| && (forall i :: 0 <= i < k && m.pending[i] == j ==> i in fails) ==>
                              segments[j] == m.segments[j]
    {
      if k !in fails {
        segments := Mark(segments, m.pending[k]);
      }
    }
    m' := Manager(segments, [], m.prepared);
  }

  // ── The machine ────────────────────────────────────────────────────────────

  /** From `start` on the claim was true when the shard was opened. */
  datatype Shard = Shard(oldest: nat, start: nat, claimed: nat, avail: nat, committed: nat, durable: nat, completed: nat, mgr: Manager)

  /**
   Producers claim and publish; the committer writes a batch (possibly failing after the write),
   rolls, syncs all shards, or drains deferred syncs.
   */
  datatype Event =
    | Claim(s: nat)
    | Publish(s: nat, upTo: nat)
    | Commit(s: nat, last: nat, prepares: bool)
    | FailAfterWrite(s: nat, last: nat)
    | RollSegment(s: nat)
    | SyncPass(failAt: seq<nat>)
    | Drain(fails: seq<set<nat>>)

  ghost predicate SyncEffect(m: Manager, m': Manager, failAt: nat)
    requires Fits(m)
  {
    && Fits(m') && m'.pending == [] && m'.prepared == m.prepared && MoreSynced(m.segments, m'.segments)
    && (failAt > |m.pending| ==> FullySynced(m'.segments[|m'.segments| - 1]))
    && (forall k :: 0 <= k < |m.pending| && k < failAt ==> FullySynced(m'.segments[m.pending[k]]))
    && (forall j :: 0 <= j < |m.segments| - 1 && j !in m.pending[..Min(failAt, |m.pending|)] ==> m'.segments[j] == m.segments[j])
  }

  ghost predicate DrainEffect(m: Manager, m': Manager, fails: set<nat>)
    requires Fits(m)
  {
    && Fits(m') && m'.pending == [] && m'.prepared == m.prepared && MoreSynced(m.segments, m'.segments)
    && (forall k :: 0 <= k < |m.pending| && k !in fails ==> FullySynced(m'.segments[m.pending[k]]))
    && (forall j :: 0 <= j < |m.segments| && (forall k :: 0 <= k < |m.pending| && m.pending[k] == j ==> k in fails) ==>
                      m'.segments[j] == m.segments[j])
  }

  /** The pass over the shards gets as far as shard `s`. */
  predicate Reached(w: seq<Shard>, failAt: seq<nat>, s: nat)
    requires |failAt| == |w| && s <= |w|
  {
    forall t :: 0 <= t < s ==> failAt[t] > |w[t].mgr.pending|
  }

  /** One shard's part of a sync pass; cursors move only when every shard succeeded. */
  ghost predicate ShardSynced(a: Shard, b: Shard, failAt: nat, reached: bool, allOk: bool)
    requires Fits(a.mgr)
  {
    && (if reached then SyncEffect(a.mgr, b.mgr, failAt) else b.mgr == a.mgr)
    && b == a.(mgr := b.mgr,
               durable := if allOk then a.committed else a.durable,
               completed := if allOk then Max(a.completed, a.committed) else a.completed)
  }

  ghost predicate Next(w: seq<Shard>, e: Event, w': seq<Shard>)
  {
    && |w'| == |w|
    && (forall s :: 0 <= s < |w| ==> Fits(w[s].mgr))
    && match e
       case Claim(s) => s < |w| && w' == w[s := w[s].(claimed := w[s].claimed + 1)]
       case Publish(s, upTo) => s < |w| && w[s].avail <= upTo <= w[s].claimed && w' == w[s := w[s].(avail := upTo)]
       case Commit(s, last, prepares) =>
         && s < |w| && w[s].committed <= last < w[s].avail
         && w' == w[s := w[s].(mgr := Prepare(Append(w[s].mgr, w[s].committed, last + 1), last + 1, prepares), committed := last + 1)]
       case FailAfterWrite(s, last) =>
         && s < |w| && w[s].committed <= last < w[s].avail
         && w' == w[s := w[s].(mgr := Append(w[s].mgr, w[s].committed, last + 1))]
       case RollSegment(s) => s < |w| && w' == w[s := w[s].(mgr := Roll(w[s].mgr, w[s].committed))]
       case SyncPass(failAt) =>
         && |failAt| == |w|
         && forall s :: 0 <= s < |w| ==>
                          ShardSynced(w[s], w'[s], failAt[s], Reached(w, failAt, s), Reached(w, failAt, |w|))
       case Drain(fails) =>
         && |fails| == |w|
         && forall s :: 0 <= s < |w| ==> DrainEffect(w[s].mgr, w'[s].mgr, fails[s]) && w'[s] == w[s].(mgr := w'[s].mgr)
  }

  /** The failing sync, if any, leaves no rolled segment behind that still needed one. */
  ghost predicate SyncSpares(m: Manager, failAt: nat)
    requires Fits(m)
  {
    failAt < |m.pending| ==>
      forall k :: failAt <= k < |m.pending| && m.pending[k] !in m.pending[..failAt] ==> FullySynced(m.segments[m.pending[k]])
  }

  /** Every dropped sync was for a segment that did not need it, or is made up for by another one. */
  ghost predicate DrainSpares(m: Manager, fails: set<nat>)
    requires Fits(m)
  {
    forall k :: 0 <= k < |m.pending| && k in fails && !FullySynced(m.segments[m.pending[k]]) ==> Retried(m, fails, m.pending[k])
  }

  ghost predicate Retried(m: Manager, fails: set<nat>, j: nat)
  {
    exists i :: 0 <= i < |m.pending| && m.pending[i] == j && i !in fails
  }

  /** The step forgets no rolled segment of shard `s`; everything else may fail. */
  ghost predicate Spares(w: seq<Shard>, e: Event, s: nat)
    requires s < |w| && Fits(w[s].mgr)
  {
    match e
    case SyncPass(failAt) => |failAt| == |w| && (Reached(w, failAt, s) ==> SyncSpares(w[s].mgr, failAt[s]))
    case Drain(fails) => |fails| == |w| && DrainSpares(w[s].mgr, fails[s])
    case _ => true
  }

  // ── What holds of each shard ───────────────────────────────────────────────

  /** The shard after a batch up to `last`, which failed late or was committed. */
  function Batched(a: Shard, last: nat, late: bool, prepares: bool): (b: Shard)
    requires Fits(a.mgr)
  {
    var mgr := Append(a.mgr, a.committed, last + 1);
    if late then a.(mgr := mgr) else a.(mgr := Prepare(mgr, last + 1, prepares), committed := last + 1)
  }

  /** Every record from `start` up to the durable cursor is on stable storage. */
  ghost predicate Stored(segments: seq<Segment>, start: nat, durable: nat)
  {
    forall j, k :: 0 <= j < |segments| && 0 <= k < |segments[j].records| && start <= segments[j].records[k] < durable ==>
                     k < segments[j].synced
  }

  ghost predicate Cursors(sh: Shard)
  {
    sh.oldest <= sh.start <= sh.durable <= sh.committed <= sh.avail <= sh.claimed && sh.completed <= sh.durable
  }

  /** The segments hold exactly the committed records, in order. */
  ghost predicate Exact(sh: Shard)
  {
    sh.oldest <= sh.committed && Written(sh.mgr.segments) == Range(sh.oldest, sh.committed)
  }

  ghost predicate Holds(segments: seq<Segment>, l: nat)
  {
    exists j, k :: 0 <= j < |segments| && 0 <= k < |segments[j].records| && segments[j].records[k] == l
  }

  /** Every committed record is in the files, at least once. */
  ghost predicate Covered(sh: Shard)
  {
    forall l :: sh.oldest <= l < sh.committed ==> Holds(sh.mgr.segments, l)
  }

  ghost predicate Inv(sh: Shard)
  {
    Fits(sh.mgr) && Cursors(sh) && Covered(sh) && NothingForgotten(sh.mgr) && Stored(sh.mgr.segments, sh.start, sh.durable)
  }

  /** Opened on a segment that holds `oldest .. committed`; how much of it is synced is not known, unless `start` says so. */
  predicate Opened(sh: Shard)
  {
    && sh.oldest <= sh.start <= sh.committed == sh.durable == sh.avail == sh.claimed && sh.completed == 0
    && |sh.mgr.segments| == 1 && sh.mgr.pending == [] && sh.mgr.prepared == None && Fits(sh.mgr)
    && sh.mgr.segments[0].records == Range(sh.oldest, sh.committed)
    && (sh.start < sh.committed ==> FullySynced(sh.mgr.segments[0]))
  }

  lemma OpenedInv(sh: Shard)
    requires Opened(sh)
    ensures Inv(sh) && Exact(sh)
  {
    assert Written(sh.mgr.segments) == Range(sh.oldest, sh.committed) by {
      assert sh.mgr.segments[..0] == [];
      assert [] + Range(sh.oldest, sh.committed) == Range(sh.oldest, sh.committed);
    }
    forall l | sh.oldest <= l < sh.committed
      ensures Holds(sh.mgr.segments, l)
    {
      assert sh.mgr.segments[0].records[l - sh.oldest] == l;
    }
  }

  /** Recovery syncs nothing: the durable cursor it opens with is true of the recovered records exactly if the file had been synced before. */
  lemma ReopenedTruthfulIff(sh: Shard)
    requires Opened(sh)
    ensures Stored(sh.mgr.segments, sh.oldest, sh.durable) <==> FullySynced(sh.mgr.segments[0])
  {
    var seg := sh.mgr.segments[0];
    if seg.synced < |seg.records| {
      assert sh.oldest <= seg.records[seg.synced] < sh.durable;
    }
  }

  /** One recovered record that was never synced: below the durable cursor, and a crash may leave nothing of it. */
  lemma ReopenedUnsynced() returns (sh: Shard)
    ensures Opened(sh) && sh.durable == 1 && sh.mgr.segments == [Segment(0, [0], 0)] && CrashOutcome(sh.mgr.segments, [0])
  {
    sh := Shard(0, 1, 1, 1, 1, 1, 0, Manager([Segment(0, [0], 0)], [], None));
  }

  lemma {:induction false} WrittenHas(segments: seq<Segment>, j: nat, k: nat) returns (i: nat)
    requires j < |segments| && k < |segments[j].records|
    ensures i < |Written(segments)| && Written(segments)[i] == segments[j].records[k]
  {
    var last := |segments| - 1;
    if j == last {
      i := |Written(segments[..last])| + k;
    } else {
      i := WrittenHas(segments[..last], j, k);
    }
  }

  lemma AppendHolds(m: Manager, lo: nat, hi: nat, l: nat)
    requires Fits(m) && lo <= hi
    ensures Holds(m.segments, l) || lo <= l < hi ==> Holds(Append(m, lo, hi).segments, l)
  {
    var last := |m.segments| - 1;
    var a, b := m.segments, Append(m, lo, hi).segments;
    if Holds(a, l) {
      var j, k :| 0 <= j < |a| && 0 <= k < |a[j].records| && a[j].records[k] == l;
      assert b[j].records[k] == l;
    } else if lo <= l < hi {
      assert b[last].records[|a[last].records| + l - lo] == l;
    }
  }

  /** A batch is written; the committed cursor follows it, or stays when the batch failed late. */
  lemma WriteKeepsInv(a: Shard, b: Shard, last: nat, late: bool, prepares: bool)
    requires Inv(a) && a.committed <= last < a.avail
    requires b == Batched(a, last, late, prepares)
    ensures Inv(b)
  {
    forall l | b.oldest <= l < b.committed
      ensures Holds(b.mgr.segments, l)
    {
      AppendHolds(a.mgr, a.committed, last + 1, l);
    }
  }

  lemma RollKeepsInv(a: Shard, b: Shard)
    requires Inv(a) && b == a.(mgr := Roll(a.mgr, a.committed))
    ensures Inv(b)
  {
    forall l | b.oldest <= l < b.committed
      ensures Holds(b.mgr.segments, l)
    {
      assert Holds(a.mgr.segments, l);
      var j, k :| 0 <= j < |a.mgr.segments| && 0 <= k < |a.mgr.segments[j].records| && a.mgr.segments[j].records[k] == l;
      assert b.mgr.segments[j].records[k] == l;
    }
  }

  lemma MoreSyncedCovered(a: Shard, b: Shard)
    requires Covered(a) && MoreSynced(a.mgr.segments, b.mgr.segments) && b.oldest == a.oldest && b.committed == a.committed
    ensures Covered(b)
  {
    forall l | b.oldest <= l < b.committed
      ensures Holds(b.mgr.segments, l)
    {
      assert Holds(a.mgr.segments, l);
      var j, k :| 0 <= j < |a.mgr.segments| && 0 <= k < |a.mgr.segments[j].records| && a.mgr.segments[j].records[k] == l;
      assert b.mgr.segments[j].records[k] == l;
    }
  }

  lemma MoreSyncedStored(a: seq<Segment>, b: seq<Segment>, start: nat, durable: nat)
    requires MoreSynced(a, b) && Stored(a, start, durable)
    ensures Stored(b, start, durable)
  {
  }

  /** With nothing forgotten, a pass that reaches every rolled segment leaves all of them synced. */
  lemma SyncedRolled(m: Manager, m': Manager, failAt: nat)
    requires Fits(m) && NothingForgotten(m) && failAt >= |m.pending| && SyncEffect(m, m', failAt)
    ensures forall j :: 0 <= j < |m'.segments| - 1 ==> FullySynced(m'.segments[j])
  {
  }

  /** A sync pass over one shard's files forgets a rolled segment exactly when it does not spare it. */
  lemma FailedSyncForgetsIff(m: Manager, m': Manager, failAt: nat)
    requires Fits(m) && NothingForgotten(m) && SyncEffect(m, m', failAt)
    ensures NothingForgotten(m') <==> SyncSpares(m, failAt)
  {
    if failAt >= |m.pending| {
      SyncedRolled(m, m', failAt);
    }
  }

  /** The same for the idle clean-up, which drops every failure. */
  lemma FailedDrainForgetsIff(m: Manager, m': Manager, fails: set<nat>)
    requires Fits(m) && NothingForgotten(m) && DrainEffect(m, m', fails)
    ensures NothingForgotten(m') <==> DrainSpares(m, fails)
  {
    forall k | 0 <= k < |m.pending| && k in fails && !FullySynced(m.segments[m.pending[k]])
      ensures FullySynced(m'.segments[m.pending[k]]) <==> Retried(m, fails, m.pending[k])
    {
    }
    if DrainSpares(m, fails) {
      forall j | 0 <= j < |m'.segments| - 1
        ensures FullySynced(m'.segments[j])
      {
        if !FullySynced(m.segments[j]) {
          var k :| 0 <= k < |m.pending| && m.pending[k] == j;
        }
      }
    }
  }

  lemma SyncKeepsInv(a: Shard, b: Shard, failAt: nat, reached: bool, allOk: bool)
    requires Inv(a) && (reached ==> SyncSpares(a.mgr, failAt)) && ShardSynced(a, b, failAt, reached, allOk)
    requires allOk ==> reached && failAt > |a.mgr.pending|
    ensures Inv(b)
  {
    if reached {
      FailedSyncForgetsIff(a.mgr, b.mgr, failAt);
      MoreSyncedStored(a.mgr.segments, b.mgr.segments, a.start, a.durable);
      MoreSyncedCovered(a, b);
      if allOk {
        SyncedRolled(a.mgr, b.mgr, failAt);
      }
    }
  }

  lemma DrainKeepsInv(a: Shard, b: Shard, fails: set<nat>)
    requires Inv(a) && DrainSpares(a.mgr, fails) && DrainEffect(a.mgr, b.mgr, fails) && b == a.(mgr := b.mgr)
    ensures Inv(b)
  {
    FailedDrainForgetsIff(a.mgr, b.mgr, fails);
    MoreSyncedStored(a.mgr.segments, b.mgr.segments, a.start, a.durable);
    MoreSyncedCovered(a, b);
  }

  /** Every step that forgets no segment keeps the invariant, a batch failing after its write included. */
  lemma NextKeepsInv(w: seq<Shard>, e: Event, w': seq<Shard>, s: nat)
    requires s < |w| && Inv(w[s]) && Next(w, e, w') && Spares(w, e, s)
    ensures Inv(w'[s])
  {
    match e
    case Claim(t) =>
    case Publish(t, upTo) =>
    case Commit(t, last, prepares) =>
      if t == s {
        WriteKeepsInv(w[s], w'[s], last, false, prepares);
      }
    case FailAfterWrite(t, last) =>
      if t == s {
        WriteKeepsInv(w[s], w'[s], last, true, false);
      }
    case RollSegment(t) =>
      if t == s {
        RollKeepsInv(w[s], w'[s]);
      }
    case SyncPass(failAt) =>
      assert ShardSynced(w[s], w'[s], failAt[s], Reached(w, failAt, s), Reached(w, failAt, |w|));
      SyncKeepsInv(w[s], w'[s], failAt[s], Reached(w, failAt, s), Reached(w, failAt, |w|));
    case Drain(fails) =>
      DrainKeepsInv(w[s], w'[s], fails[s]);
  }

  // ── Whole runs ─────────────────────────────────────────────────────────────

  ghost predicate StepAt(run: seq<seq<Shard>>, events: seq<Event>, k: nat)
    requires |run| == |events| + 1 && k < |events|
  {
    Next(run[k], events[k], run[k + 1])
  }

  ghost predicate IsRun(run: seq<seq<Shard>>, events: seq<Event>)
  {
    && |run| == |events| + 1
    && (forall s :: 0 <= s < |run[0]| ==> Opened(run[0][s]))
    && forall k :: 0 <= k < |events| ==> StepAt(run, events, k)
  }

  lemma {:induction false} SameShards(run: seq<seq<Shard>>, events: seq<Event>, k: nat)
    requires IsRun(run, events) && k < |run|
    ensures |run[k]| == |run[0]|
  {
    if k > 0 {
      SameShards(run, events, k - 1);
      assert StepAt(run, events, k - 1);
    }
  }

  ghost predicate SparesAt(w: seq<Shard>, e: Event, s: nat)
  {
    s < |w| && Fits(w[s].mgr) ==> Spares(w, e, s)
  }

  /** While no rolled segment is forgotten, every state of every run keeps the shard's invariant, whatever else fails. */
  lemma {:induction false} RunKeepsInv(run: seq<seq<Shard>>, events: seq<Event>, k: nat, s: nat)
    requires IsRun(run, events) && k < |run| && s < |run[0]|
    requires forall i :: 0 <= i < k ==> SparesAt(run[i], events[i], s)
    ensures s < |run[k]| && Inv(run[k][s])
  {
    SameShards(run, events, k);
    if k == 0 {
      OpenedInv(run[0][s]);
    } else {
      SameShards(run, events, k - 1);
      RunKeepsInv(run, events, k - 1, s);
      assert StepAt(run, events, k - 1) && SparesAt(run[k - 1], events[k - 1], s);
      NextKeepsInv(run[k - 1], events[k - 1], run[k], s);
    }
  }

  lemma SyncForgets(m: Manager, m': Manager, failAt: nat)
    requires Fits(m) && SyncEffect(m, m', failAt)
    ensures NothingForgotten(m') <==> NothingForgotten(m) && SyncSpares(m, failAt)
  {
    if NothingForgotten(m) {
      FailedSyncForgetsIff(m, m', failAt);
    } else {
      var j :| 0 <= j < |m.segments| - 1 && !FullySynced(m.segments[j]) && j !in m.pending;
      assert m'.segments[j] == m.segments[j];
    }
  }

  lemma DrainForgets(m: Manager, m': Manager, fails: set<nat>)
    requires Fits(m) && DrainEffect(m, m', fails)
    ensures NothingForgotten(m') <==> NothingForgotten(m) && DrainSpares(m, fails)
  {
    if NothingForgotten(m) {
      FailedDrainForgetsIff(m, m', fails);
    } else {
      var j :| 0 <= j < |m.segments| - 1 && !FullySynced(m.segments[j]) && j !in m.pending;
      assert m'.segments[j] == m.segments[j];
    }
  }

  lemma AppendForgets(m: Manager, lo: nat, hi: nat)
    requires Fits(m)
    ensures NothingForgotten(Append(m, lo, hi)) <==> NothingForgotten(m)
  {
    var m' := Append(m, lo, hi);
    assert forall j :: 0 <= j < |m.segments| - 1 ==> m'.segments[j] == m.segments[j];
  }

  lemma RollForgets(m: Manager, next: nat)
    requires Fits(m)
    ensures NothingForgotten(Roll(m, next)) <==> NothingForgotten(m)
  {
    var m' := Roll(m, next);
    assert forall j :: 0 <= j < |m.segments| ==> m'.segments[j] == m.segments[j];
    assert m'.pending[|m.pending|] == |m.segments| - 1;
    assert forall j :: j in m'.pending <==> j in m.pending || j == |m.segments| - 1;
  }

  /** A forgotten segment stays forgotten, and a step forgets one exactly when it does not spare it. */
  lemma NextForgets(w: seq<Shard>, e: Event, w': seq<Shard>, s: nat)
    requires s < |w| && Next(w, e, w')
    ensures Fits(w'[s].mgr) && (NothingForgotten(w'[s].mgr) <==> NothingForgotten(w[s].mgr) && Spares(w, e, s))
  {
    match e
    case Claim(t) =>
    case Publish(t, upTo) =>
    case Commit(t, last, prepares) => AppendForgets(w[s].mgr, w[s].committed, last + 1);
    case FailAfterWrite(t, last) => AppendForgets(w[s].mgr, w[s].committed, last + 1);
    case RollSegment(t) => RollForgets(w[s].mgr, w[s].committed);
    case SyncPass(failAt) =>
      assert ShardSynced(w[s], w'[s], failAt[s], Reached(w, failAt, s), Reached(w, failAt, |w|));
      if Reached(w, failAt, s) {
        SyncForgets(w[s].mgr, w'[s].mgr, failAt[s]);
      }
    case Drain(fails) => DrainForgets(w[s].mgr, w'[s].mgr, fails[s]);
  }

  /** Over any run, every rolled segment is synced or still known to need it exactly when every step spared them all. */
  lemma {:induction false} NothingForgottenIff(run: seq<seq<Shard>>, events: seq<Event>, k: nat, s: nat)
    requires IsRun(run, events) && k < |run| && s < |run[0]|
    ensures s < |run[k]| && Fits(run[k][s].mgr)
    ensures NothingForgotten(run[k][s].mgr) <==> forall i :: 0 <= i < k ==> SparesAt(run[i], events[i], s)
  {
    SameShards(run, events, k);
    if k == 0 {
      OpenedInv(run[0][s]);
    } else {
      SameShards(run, events, k - 1);
      NothingForgottenIff(run, events, k - 1, s);
      assert StepAt(run, events, k - 1);
      NextForgets(run[k - 1], events[k - 1], run[k], s);
      assert SparesAt(run[k - 1], events[k - 1], s) <==> Spares(run[k - 1], events[k - 1], s);
    }
  }

  /** What a crash may leave of each segment: at least the synced part, at most everything. */
  predicate CrashOutcome(segments: seq<Segment>, kept: seq<nat>)
  {
    && |kept| == |segments|
    && forall j :: 0 <= j < |segments| ==> segments[j].synced <= kept[j] <= |segments[j].records|
  }

  /** Whatever a crash leaves, every record below the durable cursor is in it. */
  lemma CrashKeepsDurable(sh: Shard, kept: seq<nat>, l: nat) returns (j: nat, k: nat)
    requires Inv(sh) && CrashOutcome(sh.mgr.segments, kept) && sh.start <= l < sh.durable
    ensures j < |kept| && k < kept[j] <= |sh.mgr.segments[j].records| && sh.mgr.segments[j].records[k] == l
  {
    assert Holds(sh.mgr.segments, l);
    j, k :| 0 <= j < |sh.mgr.segments| && 0 <= k < |sh.mgr.segments[j].records| && sh.mgr.segments[j].records[k] == l;
  }

  /** `flush` and `drain` report success when every shard's completed mark reached its target. */
  ghost predicate FlushDone(w: seq<Shard>, targets: seq<nat>)
  {
    |targets| == |w| && forall s :: 0 <= s < |w| ==> w[s].completed >= targets[s]
  }

  /**
   A flush that took its targets at step `i` and succeeded at step `k` covers everything claimed by
   then: each such record survives any crash from step `k` on.
   */
  lemma FlushOkMeansDurable(run: seq<seq<Shard>>, events: seq<Event>, i: nat, k: nat, s: nat, l: nat, kept: seq<nat>)
    returns (j: nat, p: nat)
    requires IsRun(run, events) && i <= k < |run| && s < |run[0]|
    requires forall n :: 0 <= n < k ==> SparesAt(run[n], events[n], s)
    requires |run[i]| == |run[k]| == |run[0]|
    requires FlushDone(run[k], seq(|run[0]|, t requires 0 <= t < |run[0]| => run[i][t].claimed))
    requires run[k][s].start <= l < run[i][s].claimed
    requires CrashOutcome(run[k][s].mgr.segments, kept)
    ensures l < run[k][s].durable
    ensures j < |kept| && p < kept[j] <= |run[k][s].mgr.segments[j].records| && run[k][s].mgr.segments[j].records[p] == l
  {
    RunKeepsInv(run, events, k, s);
    assert run[k][s].completed >= run[i][s].claimed;
    j, p := CrashKeepsDurable(run[k][s], kept, l);
  }

  // ── Exactly what the failures break ────────────────────────────────────────

  /** A rolled segment that no later sync will reach, with a committed record of this session in its unsynced part. */
  ghost predicate Missed(sh: Shard, j: nat)
    requires j < |sh.mgr.segments|
  {
    && j !in sh.mgr.pending
    && exists k :: sh.mgr.segments[j].synced <= k < |sh.mgr.segments[j].records|
                   && sh.start <= sh.mgr.segments[j].records[k] < sh.committed
  }

  /** A successful pass makes the durable cursor true exactly when no rolled segment was missed, late failures or not. */
  lemma SyncTruthfulIff(a: Shard, b: Shard, failAt: nat)
    requires Fits(a.mgr) && failAt > |a.mgr.pending| && ShardSynced(a, b, failAt, true, true)
    ensures Stored(b.mgr.segments, b.start, b.durable) <==> forall j :: 0 <= j < |a.mgr.segments| - 1 ==> !Missed(a, j)
  {
    assert a.mgr.pending[..Min(failAt, |a.mgr.pending|)] == a.mgr.pending;
    if j :| 0 <= j < |a.mgr.segments| - 1 && Missed(a, j) {
      assert b.mgr.segments[j] == a.mgr.segments[j];
    } else {
      forall j, k | 0 <= j < |b.mgr.segments| && 0 <= k < |b.mgr.segments[j].records| && b.start <= b.mgr.segments[j].records[k] < b.durable
        ensures k < b.mgr.segments[j].synced
      {
        assert a.mgr.segments[j].records == b.mgr.segments[j].records;
        assert j < |a.mgr.segments| - 1 ==> !Missed(a, j);
      }
    }
  }

  /** While nothing is forgotten, nothing is missed; and without late failures that is the only way. */
  lemma MissedIff(sh: Shard)
    requires Fits(sh.mgr)
    ensures NothingForgotten(sh.mgr) ==> forall j :: 0 <= j < |sh.mgr.segments| - 1 ==> !Missed(sh, j)
    ensures Exact(sh) && sh.start == sh.oldest && (forall j :: 0 <= j < |sh.mgr.segments| - 1 ==> !Missed(sh, j)) ==> NothingForgotten(sh.mgr)
  {
    if Exact(sh) && sh.start == sh.oldest {
      forall j | 0 <= j < |sh.mgr.segments| - 1 && !Missed(sh, j) && j !in sh.mgr.pending
        ensures FullySynced(sh.mgr.segments[j])
      {
        var seg := sh.mgr.segments[j];
        if seg.synced < |seg.records| {
          var i := WrittenHas(sh.mgr.segments, j, seg.synced);
        }
      }
    }
  }

  // ── Concrete failing runs ──────────────────────────────────────────────────

  /** A fresh shard with `n` published records. */
  function Fresh(n: nat): (sh: Shard)
  {
    Shard(0, 0, n, n, 0, 0, 0, Manager([Segment(0, [], 0)], [], None))
  }

  /** Producers alone bring one opened shard there. */
  lemma {:induction false} FreshReachable(n: nat) returns (run: seq<seq<Shard>>, events: seq<Event>)
    ensures IsRun(run, events) && run[|events|] == [Fresh(n)] && forall e :: e in events ==> e.Claim? || e.Publish?
  {
    if n == 0 {
      run, events := [[Fresh(0)]], [];
    } else {
      run, events := FreshReachable(n - 1);
      var claimed := [Fresh(n - 1).(claimed := n)];
      RunExtend(run, events, Claim(0), claimed);
      run, events := run + [claimed], events + [Claim(0)];
      RunExtend(run, events, Publish(0, n), [Fresh(n)]);
      run, events := run + [[Fresh(n)]], events + [Publish(0, n)];
    }
  }

  lemma RunExtend(run: seq<seq<Shard>>, events: seq<Event>, e: Event, w: seq<Shard>)
    requires IsRun(run, events) && Next(run[|events|], e, w)
    ensures IsRun(run + [w], events + [e])
  {
    var run', events' := run + [w], events + [e];
    forall k | 0 <= k < |events'|
      ensures StepAt(run', events', k)
    {
      if k < |events| {
        assert StepAt(run, events, k);
      }
    }
  }

  lemma AppendOne(m: Manager, l: nat, m': Manager)
    requires Fits(m) && |m'.segments| == |m.segments| && m'.pending == m.pending && m'.prepared == m.prepared
    requires forall j :: 0 <= j < |m.segments| - 1 ==> m'.segments[j] == m.segments[j]
    requires var last := |m.segments| - 1;
             m'.segments[last] == m.segments[last].(records := m.segments[last].records + [l])
    ensures Append(m, l, l + 1) == m'
  {
    assert Range(l, l + 1) == [l];
    assert Append(m, l, l + 1).segments == m'.segments;
  }

  /** One record in a rolled segment that is still to be synced, one in the active segment. */
  lemma RolledAndActive() returns (run: seq<seq<Shard>>, events: seq<Event>)
    ensures IsRun(run, events)
    ensures run[|events|] == [Fresh(2).(mgr := Manager([Segment(0, [0], 0), Segment(1, [1], 0)], [0], None), committed := 2)]
  {
    run, events := FreshReachable(2);
    var s0 := Fresh(2);
    var rolled := Segment(0, [0], 0);
    var s1 := s0.(mgr := Manager([rolled], [], None), committed := 1);
    var s2 := s1.(mgr := Manager([rolled, Segment(1, [], 0)], [0], None));
    var s3 := s2.(mgr := Manager([rolled, Segment(1, [1], 0)], [0], None), committed := 2);
    AppendOne(s0.mgr, 0, s1.mgr);
    assert Roll(s1.mgr, 1) == s2.mgr;
    AppendOne(s2.mgr, 1, s3.mgr);
    RunExtend(run, events, Commit(0, 0, false), [s1]);
    run, events := run + [[s1]], events + [Commit(0, 0, false)];
    RunExtend(run, events, RollSegment(0), [s2]);
    run, events := run + [[s2]], events + [RollSegment(0)];
    RunExtend(run, events, Commit(0, 1, false), [s3]);
    run, events := run + [[s3]], events + [Commit(0, 1, false)];
  }

  /** A rolled segment's sync fails once, the next pass succeeds, and record 0 is below the durable cursor but not stored. */
  lemma ForgottenSegmentLosesRecord() returns (run: seq<seq<Shard>>, events: seq<Event>)
    ensures IsRun(run, events) && |run[|events|]| == 1
    ensures run[|events|][0].durable == 2 && !Stored(run[|events|][0].mgr.segments, 0, 2)
  {
    run, events := RolledAndActive();
    var s3 := run[|events|][0];
    var s4 := s3.(mgr := Manager(s3.mgr.segments, [], None));
    var s5 := s4.(mgr := Manager([Segment(0, [0], 0), Segment(1, [1], 1)], [], None), durable := 2, completed := 2);
    ForgetThenSync(s3, s4, s5);
    RunExtend(run, events, SyncPass([0]), [s4]);
    run, events := run + [[s4]], events + [SyncPass([0])];
    RunExtend(run, events, SyncPass([1]), [s5]);
    run, events := run + [[s5]], events + [SyncPass([1])];
  }

  lemma ForgetThenSync(a: Shard, b: Shard, c: Shard)
    requires a.mgr == Manager([Segment(0, [0], 0), Segment(1, [1], 0)], [0], None) && a.committed == 2 && a.completed == 0
    requires b == a.(mgr := Manager(a.mgr.segments, [], None))
    requires c == b.(mgr := Manager([Segment(0, [0], 0), Segment(1, [1], 1)], [], None), durable := 2, completed := 2)
    ensures Next([a], SyncPass([0]), [b]) && Next([b], SyncPass([1]), [c]) && !Stored(c.mgr.segments, 0, 2)
  {
    assert SyncEffect(a.mgr, b.mgr, 0);
    assert SyncEffect(b.mgr, c.mgr, 1);
    assert c.mgr.segments[0].records[0] == 0;
  }

  /** A batch fails after its write and is written again: the file holds record 0 twice. */
  lemma LateFailureWritesTwice(n: nat) returns (run: seq<seq<Shard>>, events: seq<Event>)
    requires n > 0
    ensures IsRun(run, events)
    ensures run[|events|] == [Fresh(n).(mgr := Manager([Segment(0, [0, 0], 0)], [], None), committed := 1)]
    ensures !Exact(run[|events|][0])
  {
    run, events := FreshReachable(n);
    var s0 := Fresh(n);
    var s1 := s0.(mgr := Manager([Segment(0, [0], 0)], [], None));
    var s2 := s1.(mgr := Manager([Segment(0, [0, 0], 0)], [], None), committed := 1);
    AppendOne(s0.mgr, 0, s1.mgr);
    AppendOne(s1.mgr, 0, s2.mgr);
    RunExtend(run, events, FailAfterWrite(0, 0), [s1]);
    run, events := run + [[s1]], events + [FailAfterWrite(0, 0)];
    RunExtend(run, events, Commit(0, 0, false), [s2]);
    run, events := run + [[s2]], events + [Commit(0, 0, false)];
    assert Late(events[|events| - 2], 0);
    SameShards(run, events, |events|);
    ExactIff(run, events, |events|, 0);
  }

  /** One more record and a sync that succeeds: every record is stored, the repeated one twice. */
  lemma LateFailureSynced() returns (run: seq<seq<Shard>>, events: seq<Event>)
    ensures IsRun(run, events) && |run[|events|]| == 1
    ensures Inv(run[|events|][0]) && run[|events|][0].durable == 2 && run[|events|][0].mgr.segments == [Segment(0, [0, 0, 1], 3)]
  {
    run, events := LateFailureWritesTwice(2);
    var s2 := run[|events|][0];
    var s3 := s2.(mgr := Manager([Segment(0, [0, 0, 1], 0)], [], None), committed := 2);
    var s4 := s3.(mgr := Manager([Segment(0, [0, 0, 1], 3)], [], None), durable := 2, completed := 2);
    CommitThenSync(s2, s3, s4);
    RunExtend(run, events, Commit(0, 1, false), [s3]);
    run, events := run + [[s3]], events + [Commit(0, 1, false)];
    RunExtend(run, events, SyncPass([1]), [s4]);
    run, events := run + [[s4]], events + [SyncPass([1])];
  }

  lemma CommitThenSync(a: Shard, b: Shard, c: Shard)
    requires a == Fresh(2).(mgr := Manager([Segment(0, [0, 0], 0)], [], None), committed := 1)
    requires b == a.(mgr := Manager([Segment(0, [0, 0, 1], 0)], [], None), committed := 2)
    requires c == b.(mgr := Manager([Segment(0, [0, 0, 1], 3)], [], None), durable := 2, completed := 2)
    ensures Next([a], Commit(0, 1, false), [b]) && Next([b], SyncPass([1]), [c]) && Inv(c)
  {
    AppendOne(a.mgr, 1, b.mgr);
    assert SyncEffect(b.mgr, c.mgr, 1);
    var records := c.mgr.segments[0].records;
    assert records[0] == 0 && records[2] == 1;
    assert Holds(c.mgr.segments, 0) && Holds(c.mgr.segments, 1);
  }

  /** More records in the files than the committed cursor accounts for. */
  ghost predicate Surplus(sh: Shard)
  {
    Exceeds(sh.oldest, sh.committed, Written(sh.mgr.segments))
  }

  ghost predicate Exceeds(start: nat, committed: nat, written: seq<nat>)
  {
    start <= committed && |written| > committed - start
  }

  lemma WrittenGrows(start: nat, committed: nat, next: nat, written: seq<nat>)
    requires start <= committed <= next
    ensures written == Range(start, committed) ==> written + Range(committed, next) == Range(start, next)
    ensures written == Range(start, committed) && committed < next ==> Exceeds(start, committed, written + Range(committed, next))
    ensures Exceeds(start, committed, written) ==> Exceeds(start, next, written + Range(committed, next))
    ensures Exceeds(start, committed, written) ==> Exceeds(start, committed, written + Range(committed, next))
  {
    RangeAppend(start, committed, next);
  }

  ghost predicate Late(e: Event, s: nat)
  {
    e.FailAfterWrite? && e.s == s
  }

  ghost predicate Steps(a: Shard, b: Shard, late: bool)
  {
    && (Exact(a) && !late ==> Exact(b))
    && (Exact(a) && late ==> Surplus(b))
    && (Surplus(a) ==> Surplus(b))
  }

  lemma WriteSteps(a: Shard, b: Shard, last: nat, late: bool, prepares: bool)
    requires Fits(a.mgr) && a.committed <= last && b == Batched(a, last, late, prepares)
    ensures Steps(a, b, late)
  {
    WrittenAppend(a.mgr, a.committed, last + 1);
    if a.oldest <= a.committed {
      WrittenGrows(a.oldest, a.committed, last + 1, Written(a.mgr.segments));
    }
  }

  lemma SyncSteps(a: Shard, b: Shard)
    requires a.oldest == b.oldest && a.committed == b.committed && MoreSynced(a.mgr.segments, b.mgr.segments)
    ensures Steps(a, b, false)
  {
    WrittenSame(a.mgr.segments, b.mgr.segments);
  }

  lemma ExactStep(w: seq<Shard>, e: Event, w': seq<Shard>, s: nat)
    requires s < |w| && Next(w, e, w')
    ensures s < |w'| && Steps(w[s], w'[s], Late(e, s))
  {
    match e
    case Claim(t) =>
    case Publish(t, upTo) =>
    case Commit(t, last, prepares) =>
      if t == s {
        WriteSteps(w[s], w'[s], last, false, prepares);
      }
    case FailAfterWrite(t, last) =>
      if t == s {
        WriteSteps(w[s], w'[s], last, true, false);
      }
    case RollSegment(t) =>
      if t == s {
        WrittenRoll(w[s].mgr, w[s].committed);
      }
    case SyncPass(failAt) =>
      assert ShardSynced(w[s], w'[s], failAt[s], Reached(w, failAt, s), Reached(w, failAt, |w|));
      SyncSteps(w[s], w'[s]);
    case Drain(fails) =>
      SyncSteps(w[s], w'[s]);
  }

  lemma StepsDecide(a: Shard, b: Shard, late: bool, exact: bool)
    requires Steps(a, b, late) && (Exact(a) <==> exact) && (!Exact(a) ==> Surplus(a))
    ensures Exact(b) <==> exact && !late
    ensures !Exact(b) ==> Surplus(b)
  {
  }

  ghost predicate NeverLate(events: seq<Event>, k: nat, s: nat)
    requires k <= |events|
  {
    forall i :: 0 <= i < k ==> !Late(events[i], s)
  }

  /** Over any run, the files hold exactly the committed records if and only if no batch of the shard failed after its write. */
  lemma {:induction false} ExactIff(run: seq<seq<Shard>>, events: seq<Event>, k: nat, s: nat)
    requires IsRun(run, events) && k < |run| && s < |run[0]|
    ensures s < |run[k]|
    ensures Exact(run[k][s]) <==> NeverLate(events, k, s)
    ensures !Exact(run[k][s]) ==> Surplus(run[k][s])
  {
    SameShards(run, events, k);
    if k == 0 {
      OpenedInv(run[0][s]);
    } else {
      ExactIff(run, events, k - 1, s);
      assert StepAt(run, events, k - 1);
      ExactStep(run[k - 1], events[k - 1], run[k], s);
      StepsDecide(run[k - 1][s], run[k][s], Late(events[k - 1], s), NeverLate(events, k - 1, s));
    }
  }
}
