/**
 Cursors over global ids.

 Each shard has its own durable cursor, a local sequence.  The recovery report counts records by
 global id, and the publisher and the start-up scan use the lowest local cursor as a bound on global
 ids.
 */
module GlobalCursor {
  import opened Arith
  import opened RecordIds

  predicate IsDurable(cursors: seq<nat>, s: nat, l: nat)
  {
    s < |cursors| && l < cursors[s]
  }

  // ── The recovery report ────────────────────────────────────────────────────

  /** Records of shard `s` below local `d` whose id is at least `checkpoint`. */
  function CountShard(s: nat, d: nat, bits: nat, checkpoint: nat): (n: nat)
    requires s < Pow2(bits)
  {
    if d == 0 then 0
    else CountShard(s, d - 1, bits, checkpoint) + if GlobalId(s, d - 1, bits) >= checkpoint then 1 else 0
  }

  /** Durable records of the first `n` shards at or after the checkpoint. */
  function CountAll(cursors: seq<nat>, n: nat, bits: nat, checkpoint: nat): (c: nat)
    requires n <= |cursors| <= Pow2(bits)
  {
    if n == 0 then 0 else CountAll(cursors, n - 1, bits, checkpoint) + CountShard(n - 1, cursors[n - 1], bits, checkpoint)
  }

  function CeilDiv(x: nat, d: nat): (q: nat)
    requires d > 0
  {
    (x + d - 1) / d
  }

  lemma CeilDivAtMost(x: nat, d: nat, l: nat)
    requires d > 0
    ensures CeilDiv(x, d) <= l <==> x <= l * d
  {
    var y := x + d - 1;
    var q, r := y / d, y % d;
    DivMod(y, d);
    if l < q {
      MulStep(l, q, d);
    } else if l > q {
      MulStep(q, l, d);
    }
  }

  /** The source's first local sequence of shard `s` at or after the checkpoint. */
  function FirstLocal(s: nat, checkpoint: nat, bits: nat): (l: nat)
  {
    if checkpoint <= s then 0 else CeilDiv(checkpoint - s, Pow2(bits))
  }

  lemma FirstLocalIff(s: nat, checkpoint: nat, bits: nat, l: nat)
    requires s < Pow2(bits)
    ensures GlobalId(s, l, bits) >= checkpoint <==> l >= FirstLocal(s, checkpoint, bits)
  {
    if checkpoint > s {
      CeilDivAtMost(checkpoint - s, Pow2(bits), l);
    }
  }

  lemma {:induction false} CountShardIs(s: nat, d: nat, bits: nat, checkpoint: nat)
    requires s < Pow2(bits)
    ensures CountShard(s, d, bits, checkpoint) ==
            if d <= FirstLocal(s, checkpoint, bits) then 0 else d - FirstLocal(s, checkpoint, bits)
  {
    if d > 0 {
      CountShardIs(s, d - 1, bits, checkpoint);
      FirstLocalIff(s, checkpoint, bits, d - 1);
    }
  }

  /** `w` is the lowest id that is not durable. */
  ghost predicate Watermark(cursors: seq<nat>, n: nat, bits: nat, w: nat)
    requires n <= |cursors| <= Pow2(bits)
  {
    && (exists s, l :: 0 <= s < n && 0 <= l && GlobalId(s, l, bits) == w && l >= cursors[s])
    && (forall s, l :: 0 <= s < n && 0 <= l && GlobalId(s, l, bits) < w ==> l < cursors[s])
  }

  lemma IdsAscend(s: nat, l: nat, m: nat, bits: nat)
    requires s < Pow2(bits) && l <= m
    ensures GlobalId(s, l, bits) <= GlobalId(s, m, bits)
  {
    GlobalIdOrder(s, m, s, l, bits);
  }

  lemma OneWatermark(cursors: seq<nat>, bits: nat)
    requires 0 < |cursors| <= Pow2(bits)
    ensures Watermark(cursors, 1, bits, GlobalId(0, cursors[0], bits))
  {
  }

  lemma NextWatermark(cursors: seq<nat>, n: nat, bits: nat, w: nat)
    requires 0 < n < |cursors| <= Pow2(bits) && Watermark(cursors, n, bits, w)
    ensures Watermark(cursors, n + 1, bits, Min(w, GlobalId(n, cursors[n], bits)))
  {
    var here := GlobalId(n, cursors[n], bits);
    forall s: nat, l: nat | s < n + 1 && GlobalId(s, l, bits) < Min(w, here)
      ensures l < cursors[s]
    {
      if s == n && cursors[n] <= l {
        IdsAscend(n, cursors[n], l, bits);
      }
    }
    if w < here {
      var s: nat, l: nat :| 0 <= s < n && 0 <= l && GlobalId(s, l, bits) == w && l >= cursors[s];
      assert GlobalId(s, l, bits) == Min(w, here);
    } else {
      assert GlobalId(n, cursors[n], bits) == Min(w, here);
    }
  }

  const U64_MAX := U64_SIZE - 1

  /** Every first non-durable id fits a 64-bit word. */
  ghost predicate Fits(cursors: seq<nat>, bits: nat)
    requires |cursors| <= Pow2(bits)
  {
    forall s :: 0 <= s < |cursors| ==> GlobalId(s, cursors[s], bits) <= U64_MAX
  }

  /**
   The report: how many durable records lie at or after the checkpoint, and the lowest id that is
   not durable.  An id equal to the largest word is reported as 0.
   */
  method RecoveryReport(cursors: seq<nat>, bits: nat, checkpoint: nat) returns (count: nat, to: nat)
    requires 0 < |cursors| <= Pow2(bits) && Fits(cursors, bits)
    ensures count == CountAll(cursors, |cursors|, bits, checkpoint)
    ensures exists w: nat :: Watermark(cursors, |cursors|, bits, w) && to == if w == U64_MAX then 0 else w
  {
    count := 0;
    var watermark: nat := U64_MAX;
    for s := 0 to |cursors|
      invariant count == CountAll(cursors, s, bits, checkpoint)
      invariant s == 0 ==> watermark == U64_MAX
      invariant s > 0 ==> Watermark(cursors, s, bits, watermark)
    {
      var first := FirstLocal(s, checkpoint, bits);
      CountShardIs(s, cursors[s], bits, checkpoint);
      count := count + if cursors[s] > first then cursors[s] - first else 0;
      var w := GlobalId(s, cursors[s], bits);
      if s == 0 {
        OneWatermark(cursors, bits);
      } else {
        NextWatermark(cursors, s, bits, watermark);
      }
      watermark := Min(w, watermark);
    }
    to := if watermark == U64_MAX then 0 else watermark;
  }

  // ── The lowest cursor as a bound on ids ────────────────────────────────────

  /** The lowest cursor; 0 without shards. */
  function Lowest(cursors: seq<nat>): (m: nat)
    ensures cursors != [] ==> exists s :: 0 <= s < |cursors| && cursors[s] == m
    ensures forall s :: 0 <= s < |cursors| ==> m <= cursors[s]
  {
    if |cursors| == 0 then 0
    else if |cursors| == 1 then cursors[0]
    else Min(Lowest(cursors[..|cursors| - 1]), cursors[|cursors| - 1])
  }

  lemma LocalAtMostId(s: nat, l: nat, bits: nat)
    requires s < Pow2(bits)
    ensures l <= GlobalId(s, l, bits)
  {
    if l > 0 {
      assert l * Pow2(bits) >= l * 1;
    }
  }

  /** Every record with an id below the lowest cursor is durable, for any number of shards. */
  lemma BelowLowestDurable(cursors: seq<nat>, bits: nat, s: nat, l: nat)
    requires s < |cursors| <= Pow2(bits) && GlobalId(s, l, bits) < Lowest(cursors)
    ensures IsDurable(cursors, s, l)
  {
    LocalAtMostId(s, l, bits);
  }

  /** A half-open range of ids handed to one scan. */
  datatype Scan = Nothing | Range(from: nat, to: nat)

  class Publisher {
    var lastGid: nat

    /** One poll: scan up to the lowest cursor when it moved; a failed scan is tried again later. */
    method Poll(cursors: seq<nat>, fails: bool) returns (scan: Scan)
      modifies this
      ensures scan.Range? <==> !fails && Lowest(cursors) > old(lastGid)
      ensures scan.Range? ==> scan == Range(old(lastGid), Lowest(cursors)) && lastGid == Lowest(cursors)
      ensures scan.Nothing? ==> lastGid == old(lastGid)
    {
      var durable := Lowest(cursors);
      if durable > lastGid && !fails {
        scan := Range(lastGid, durable);
        lastGid := durable;
      } else {
        scan := Nothing;
      }
    }
  }

  /** Polls over growing cursors; `last[i]` is the publisher's position before poll `i`. */
  datatype Polls = Polls(cursors: seq<seq<nat>>, scans: seq<Scan>, last: seq<nat>)

  ghost predicate PollAt(r: Polls, i: nat)
    requires |r.scans| == |r.cursors| && |r.last| == |r.cursors| + 1 && i < |r.cursors|
  {
    match r.scans[i]
    case Nothing => r.last[i + 1] == r.last[i]
    case Range(from, to) => from == r.last[i] < to == Lowest(r.cursors[i]) == r.last[i + 1]
  }

  ghost predicate IsRun(r: Polls)
  {
    && |r.scans| == |r.cursors| && |r.last| == |r.cursors| + 1 && r.last[0] == 0
    && forall i :: 0 <= i < |r.cursors| ==> PollAt(r, i)
  }

  predicate Covers(scan: Scan, gid: nat)
  {
    scan.Range? && scan.from <= gid < scan.to
  }

  lemma {:induction false} Ascends(r: Polls, i: nat, j: nat)
    requires IsRun(r) && i <= j < |r.last|
    ensures r.last[i] <= r.last[j]
    decreases j
  {
    if i < j {
      Ascends(r, i, j - 1);
      assert PollAt(r, j - 1);
    }
  }

  /** Each id below the position is covered by exactly one scan, and lower ids never by a later one. */
  lemma VisitedOnceInOrder(r: Polls, i: nat, j: nat, a: nat, b: nat)
    requires IsRun(r) && i < |r.scans| && j < |r.scans| && Covers(r.scans[i], a) && Covers(r.scans[j], b)
    ensures a == b ==> i == j
    ensures a < b ==> i <= j
  {
    assert PollAt(r, i) && PollAt(r, j);
    if i < j {
      Ascends(r, i + 1, j);
    } else if j < i {
      Ascends(r, j + 1, i);
    }
  }

  /** An id is visited exactly when it lies below the position, and its record is durable by then. */
  lemma {:induction false} VisitedIff(r: Polls, n: nat, bits: nat, s: nat, l: nat)
    requires IsRun(r) && n <= |r.scans| && s < Pow2(bits)
    ensures (exists i :: 0 <= i < n && Covers(r.scans[i], GlobalId(s, l, bits))) <==> GlobalId(s, l, bits) < r.last[n]
  {
    var gid := GlobalId(s, l, bits);
    if n > 0 {
      VisitedIff(r, n - 1, bits, s, l);
      assert PollAt(r, n - 1);
      if r.last[n - 1] <= gid < r.last[n] {
        assert Covers(r.scans[n - 1], gid);
      }
      Ascends(r, n - 1, n);
      if exists i :: 0 <= i < n && Covers(r.scans[i], gid) {
        var i :| 0 <= i < n && Covers(r.scans[i], gid);
        assert i < n - 1 || Covers(r.scans[n - 1], gid);
      }
    }
  }

  lemma VisitedIsDurable(r: Polls, i: nat, bits: nat, s: nat, l: nat)
    requires IsRun(r) && i < |r.scans| && s < |r.cursors[i]| <= Pow2(bits) && Covers(r.scans[i], GlobalId(s, l, bits))
    ensures IsDurable(r.cursors[i], s, l)
  {
    assert PollAt(r, i);
    BelowLowestDurable(r.cursors[i], bits, s, l);
  }

  /** The start-up scan of ids below the lowest committed cursor finds every committed record. */
  ghost predicate ScanFindsAll(cursors: seq<nat>, bits: nat)
    requires |cursors| <= Pow2(bits)
  {
    forall s, l :: 0 <= s < |cursors| && 0 <= l < cursors[s] ==> GlobalId(s, l, bits) < Lowest(cursors)
  }

  lemma LastOfSecondShard(cursors: seq<nat>, bits: nat)
    requires 2 <= |cursors| <= Pow2(bits) && Lowest(cursors) > 0
    ensures GlobalId(1, Lowest(cursors) - 1, bits) >= Lowest(cursors)
  {
    LocalAtMostId(0, Lowest(cursors) - 1, bits);
  }

  /** It finds everything exactly for a single shard or when nothing was committed at all. */
  lemma StartupScanCompleteIff(cursors: seq<nat>)
    requires cursors != []
    ensures ScanFindsAll(cursors, ShardBits(|cursors|)) <==>
            |cursors| == 1 || forall s :: 0 <= s < |cursors| ==> cursors[s] == 0
  {
    var bits := ShardBits(|cursors|);
    if |cursors| == 1 {
      OneShardBits();
    } else if Lowest(cursors) > 0 {
      LastOfSecondShard(cursors, bits);
      assert Lowest(cursors) - 1 < cursors[1];
      assert cursors[1] != 0;
    } else if s :| 0 <= s < |cursors| && cursors[s] > 0 {
      assert GlobalId(s, 0, bits) >= Lowest(cursors);
    }
  }

  /** Two shards with one record each: the scan stops before the record with id 1. */
  lemma StartupScanMisses()
    ensures ShardBits(2) == 1 && Lowest([1, 1]) == 1 && GlobalId(1, 0, 1) == 1 && !ScanFindsAll([1, 1], 1)
  {
    assert Pow2(0) == 1 && Pow2(1) == 2;
    StartupScanCompleteIff([1, 1]);
  }

  lemma OneShardBits()
    ensures ShardBits(1) == 0 && Pow2(0) == 1
  {
    assert 1 <= Pow2(0);
  }
}
