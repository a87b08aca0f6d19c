/**
 The long-poll Tail of a stream.

 Each poll looks at the first records of the stream's index at or after its cursor, drops those not
 yet durable and those covered by a tombstone, sends at most one batch and moves the cursor past
 the last record sent, or past everything read when nothing was live.
 */
module Tail {
  /** One mapped record of the stream: its seq and where it lies. */
  datatype Entry = Entry(num: nat, shard: nat, local: nat)

  /** What a poll finds: the stream's index by seq, the durable cursors, the tombstone cutoff. */
  datatype World = World(index: seq<Entry>, durable: seq<nat>, cutoff: nat)

  predicate Ordered(entries: seq<Entry>)
  {
    forall i, j :: 0 <= i < j < |entries| ==> entries[i].num < entries[j].num
  }

  predicate Wanted(shardIds: set<nat>, e: Entry)
  {
    shardIds == {} || e.shard in shardIds
  }

  predicate Durable(w: World, e: Entry)
  {
    e.shard < |w.durable| && e.local < w.durable[e.shard]
  }

  // ── One read ───────────────────────────────────────────────────────────────

  /** `some` is the first part of what `all` has for the reader, in order, cut at `limit`. */
  ghost predicate FirstOf(all: seq<Entry>, keep: Entry -> bool, limit: nat, some: seq<Entry>)
  {
    && |some| <= limit && Ordered(some)
    && (forall e :: e in some ==> e in all && keep(e))
    && (forall e :: e in all && keep(e) ==> e in some || (|some| == limit && forall x :: x in some ==> x.num < e.num))
  }

  function First(all: seq<Entry>, keep: Entry -> bool, limit: nat): (some: seq<Entry>)
  {
    if all == [] then []
    else
      var some, e := First(all[..|all| - 1], keep, limit), all[|all| - 1];
      if keep(e) && |some| < limit then some + [e] else some
  }

  lemma {:induction false} FirstIsFirst(all: seq<Entry>, keep: Entry -> bool, limit: nat)
    requires Ordered(all)
    ensures FirstOf(all, keep, limit, First(all, keep, limit))
  {
    if all != [] {
      var init, e := all[..|all| - 1], all[|all| - 1];
      FirstIsFirst(init, keep, limit);
      assert all == init + [e];
      assert forall x :: x in init ==> x.num < e.num;
    }
  }

  method Select(all: seq<Entry>, keep: Entry -> bool, limit: nat) returns (some: seq<Entry>)
    requires Ordered(all)
    ensures some == First(all, keep, limit) && FirstOf(all, keep, limit, some)
  {
    some := [];
    for i := 0 to |all|
      invariant some == First(all[..i], keep, limit)
    {
      assert all[..i + 1][..i] == all[..i];
      if keep(all[i]) && |some| < limit {
        some := some + [all[i]];
      }
    }
    assert all[..|all|] == all;
    FirstIsFirst(all, keep, limit);
  }

  // ── One poll ───────────────────────────────────────────────────────────────

  /** A record a poll at `cursor` may deliver. */
  predicate Visible(w: World, shardIds: set<nat>, e: Entry)
  {
    e in w.index && Wanted(shardIds, e) && Durable(w, e)
  }

  /** A poll sends `out` and moves its cursor from `cursor` to `cursor'`. */
  ghost predicate PollStep(w: World, shardIds: set<nat>, batch: nat, cursor: nat, out: seq<Entry>, cursor': nat)
  {
    && cursor <= cursor' && |out| <= batch && Ordered(out)
    && (forall e :: e in out ==> Visible(w, shardIds, e) && cursor <= e.num < cursor' && e.num > w.cutoff)
    && (forall e :: Visible(w, shardIds, e) && cursor <= e.num < cursor' ==> e in out || e.num <= w.cutoff)
    && (cursor' != cursor ==> exists e :: Visible(w, shardIds, e) && e.num + 1 == cursor')
  }

  /** The index entries a poll looks at. */
  function Window(w: World, shardIds: set<nat>, batch: nat, cursor: nat): (window: seq<Entry>)
  {
    First(w.index, (e: Entry) => Wanted(shardIds, e) && e.num >= cursor, 4 * batch)
  }

  /** Something the poll looks at is durable. */
  ghost predicate SomethingToRead(w: World, shardIds: set<nat>, batch: nat, cursor: nat)
  {
    exists e :: e in Window(w, shardIds, batch, cursor) && Durable(w, e)
  }

  lemma PollIsStep(w: World, shardIds: set<nat>, batch: nat, cursor: nat, window: seq<Entry>, read: seq<Entry>, out: seq<Entry>)
    requires FirstOf(w.index, (e: Entry) => Wanted(shardIds, e) && e.num >= cursor, 4 * batch, window)
    requires FirstOf(window, (e: Entry) => Durable(w, e), |window|, read)
    requires FirstOf(read, (e: Entry) => e.num > w.cutoff, batch, out) && read != [] && batch > 0
    ensures PollStep(w, shardIds, batch, cursor, out, (if out != [] then out[|out| - 1] else read[|read| - 1]).num + 1)
    ensures cursor <= (if out != [] then out[|out| - 1] else read[|read| - 1]).num
  {
  }

  class TailLoop {
    var lastSeq: nat
    const shardIds: set<nat>
    const batch: nat

    constructor (from: nat, shardIds: set<nat>, batch: nat)
      ensures lastSeq == from && this.shardIds == shardIds && this.batch == batch
    {
      lastSeq, this.shardIds, this.batch := from, shardIds, batch;
    }

    method Poll(w: World) returns (out: seq<Entry>)
      requires Ordered(w.index) && batch > 0
      modifies this
      ensures PollStep(w, shardIds, batch, old(lastSeq), out, lastSeq)
      ensures lastSeq > old(lastSeq) <==> SomethingToRead(w, shardIds, batch, old(lastSeq))
    {
      var from := lastSeq;
      var window := Select(w.index, (e: Entry) => Wanted(shardIds, e) && e.num >= from, 4 * batch);
      var read := Select(window, (e: Entry) => Durable(w, e), |window|);
      out := Select(read, (e: Entry) => e.num > w.cutoff, batch);
      if read == [] {
        return;
      }
      PollIsStep(w, shardIds, batch, from, window, read, out);
      if out != [] {
        lastSeq := out[|out| - 1].num + 1;
      } else {
        lastSeq := read[|read| - 1].num + 1;
      }
      assert read[0] in read && read[0] in window;
    }
  }

  // ── Whole runs ─────────────────────────────────────────────────────────────

  /** Polls against a changing world; `cursors[i]` is the cursor before poll `i`. */
  datatype Run = Run(shardIds: set<nat>, batch: nat, worlds: seq<World>, outs: seq<seq<Entry>>, cursors: seq<nat>)

  /** Between polls records are mapped, become durable, and are deleted; nothing is taken back. */
  ghost predicate Grows(w: World, w': World)
  {
    && (forall e :: e in w.index ==> e in w'.index)
    && |w.durable| == |w'.durable| && (forall s :: 0 <= s < |w.durable| ==> w.durable[s] <= w'.durable[s])
    && w.cutoff <= w'.cutoff
  }

  ghost predicate Fits(r: Run)
  {
    |r.outs| == |r.worlds| && |r.cursors| == |r.worlds| + 1
  }

  ghost predicate PollAt(r: Run, i: nat)
    requires Fits(r) && i < |r.worlds|
  {
    && Ordered(r.worlds[i].index) && PollStep(r.worlds[i], r.shardIds, r.batch, r.cursors[i], r.outs[i], r.cursors[i + 1])
    && (i > 0 ==> Grows(r.worlds[i - 1], r.worlds[i]))
  }

  ghost predicate IsRun(r: Run)
  {
    Fits(r) && forall i :: 0 <= i < |r.worlds| ==> PollAt(r, i)
  }

  /** Everything sent by the first `n` polls. */
  ghost function Sent(outs: seq<seq<Entry>>, n: nat): (sent: seq<Entry>)
    requires n <= |outs|
  {
    if n == 0 then [] else Sent(outs, n - 1) + outs[n - 1]
  }

  /** What is sent is in strictly increasing seq order, across polls too, and lies below the cursor. */
  lemma {:induction false} SentAscending(r: Run, n: nat)
    requires IsRun(r) && n <= |r.outs|
    ensures Ordered(Sent(r.outs, n)) && r.cursors[0] <= r.cursors[n]
    ensures forall e :: e in Sent(r.outs, n) ==> r.cursors[0] <= e.num < r.cursors[n]
  {
    if n > 0 {
      SentAscending(r, n - 1);
      assert PollAt(r, n - 1);
      JoinOrdered(Sent(r.outs, n - 1), r.outs[n - 1], r.cursors[n - 1]);
    }
  }

  lemma JoinOrdered(a: seq<Entry>, b: seq<Entry>, at: nat)
    requires Ordered(a) && Ordered(b)
    requires (forall e :: e in a ==> e.num < at) && (forall e :: e in b ==> e.num >= at)
    ensures Ordered(a + b)
  {
    assert forall i :: 0 <= i < |a| ==> a[i] in a;
    assert forall i :: 0 <= i < |b| ==> b[i] in b;
  }

  /** The poll that moves the cursor over a seq. */
  ghost predicate Passes(r: Run, i: nat, num: nat)
    requires IsRun(r)
  {
    i < |r.worlds| && r.cursors[i] <= num < r.cursors[i + 1]
  }

  /** A record is sent exactly when it is visible and live at the poll that passes it. */
  lemma {:induction false} SentIff(r: Run, n: nat, e: Entry) returns (i: nat)
    requires IsRun(r) && n <= |r.outs| && r.cursors[0] <= e.num < r.cursors[n]
    ensures i < n && Passes(r, i, e.num)
    ensures e in Sent(r.outs, n) <==> Visible(r.worlds[i], r.shardIds, e) && e.num > r.worlds[i].cutoff
  {
    assert n > 0;
    SentAscending(r, n - 1);
    assert PollAt(r, n - 1);
    if e.num < r.cursors[n - 1] {
      i := SentIff(r, n - 1, e);
    } else {
      i := n - 1;
    }
  }

  // ── One shard, sequential appends ──────────────────────────────────────────

  /** In the index of one world, seq order and position in shard `s` agree. */
  ghost predicate InOrder(w: World, s: nat)
  {
    forall x, y :: x in w.index && y in w.index && x.shard == y.shard == s && x.num < y.num ==> x.local < y.local
  }

  /** New records of shard `s` come after the known ones. */
  ghost predicate AddsAtEnd(w: World, w': World, s: nat)
  {
    forall x, y :: x in w'.index && y in w.index && x.shard == y.shard == s && x.num <= y.num ==> x in w.index
  }

  ghost predicate Sequential(r: Run, s: nat)
  {
    && r.shardIds == {s}
    && forall i :: 0 <= i < |r.worlds| ==> SequentialAt(r, s, i)
  }

  ghost predicate SequentialAt(r: Run, s: nat, i: nat)
    requires i < |r.worlds|
  {
    InOrder(r.worlds[i], s) && (i > 0 ==> AddsAtEnd(r.worlds[i - 1], r.worlds[i], s))
  }

  lemma {:induction false} AlreadyKnown(r: Run, s: nat, i: nat, j: nat, x: Entry, y: Entry)
    requires IsRun(r) && Sequential(r, s) && i <= j < |r.worlds|
    requires y in r.worlds[i].index && x in r.worlds[j].index && x.shard == y.shard == s && x.num <= y.num
    ensures x in r.worlds[i].index
    decreases j
  {
    if i < j {
      StillKnown(r, i, j - 1, y);
      assert SequentialAt(r, s, j);
      AlreadyKnown(r, s, i, j - 1, x, y);
    }
  }

  lemma {:induction false} StillKnown(r: Run, i: nat, j: nat, y: Entry)
    requires IsRun(r) && i <= j < |r.worlds| && y in r.worlds[i].index
    ensures y in r.worlds[j].index && r.worlds[i].cutoff <= r.worlds[j].cutoff
    decreases j
  {
    if i < j {
      StillKnown(r, i, j - 1, y);
      assert PollAt(r, j);
    }
  }

  /** The record a poll stops at makes every earlier record of the shard visible to that poll. */
  lemma EarlierVisible(w: World, s: nat, e: Entry, y: Entry)
    requires Ordered(w.index) && InOrder(w, s) && Visible(w, {s}, y) && e in w.index && e.shard == s && e.num <= y.num
    ensures Visible(w, {s}, e)
  {
  }

  /**
   With appends to the shard one after another, nothing is skipped: below the cursor every record of
   the shard was sent or is covered by a tombstone.
   */
  lemma SequentialTailComplete(r: Run, s: nat, n: nat, e: Entry)
    requires IsRun(r) && Sequential(r, s) && 0 < n <= |r.worlds|
    requires e in r.worlds[n - 1].index && e.shard == s && r.cursors[0] <= e.num < r.cursors[n]
    ensures e in Sent(r.outs, n) || e.num <= r.worlds[n - 1].cutoff
  {
    var i := SentIff(r, n, e);
    var w := r.worlds[i];
    assert PollAt(r, i);
    assert SequentialAt(r, s, i);
    var y :| Visible(w, {s}, y) && y.num + 1 == r.cursors[i + 1];
    AlreadyKnown(r, s, i, n - 1, e, y);
    EarlierVisible(w, s, e, y);
    StillKnown(r, i, n - 1, y);
  }

  /** Two appends that overtake each other: the lower seq is mapped after the poll that passes it and never sent. */
  lemma OvertakenAppendSkipped() returns (r: Run, e: Entry)
    ensures IsRun(r) && r.shardIds == {0} && |r.worlds| == 2
    ensures Visible(r.worlds[1], r.shardIds, e) && r.cursors[0] <= e.num < r.cursors[2] && e.num > r.worlds[1].cutoff
    ensures e !in Sent(r.outs, 2)
  {
    var low, high := Entry(1, 0, 1), Entry(2, 0, 0);
    var w0, w1 := World([high], [1], 0), World([low, high], [2], 0);
    r, e := Run({0}, 10, [w0, w1], [[high], []], [0, 3, 3]), low;
    assert high in w0.index && Visible(w0, {0}, high);
    assert PollStep(w0, {0}, 10, 0, [high], 3);
    assert PollStep(w1, {0}, 10, 3, [], 3);
    assert low in w1.index;
    assert Grows(w0, w1);
    assert PollAt(r, 0) && PollAt(r, 1);
    assert Sent(r.outs, 1) == [] + [high];
    assert Sent(r.outs, 2) == Sent(r.outs, 1) + [];
  }
}
