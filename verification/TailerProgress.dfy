/**
 The tailer's progress file.

 One shard: a 64-bit position and a checksum.  Several shards: a 32-bit count, one 64-bit position
 per shard and a checksum.  A file that does not fit the shard count or its checksum is ignored.
 */
module TailerProgress {
  import opened Bytes

  datatype File = Missing | Contents(data: seq<Byte>)

  /** Every position fits 64 bits, the shard count 32. */
  predicate Storable(positions: seq<nat>)
  {
    |positions| < 0x1_0000_0000 && forall i :: 0 <= i < |positions| ==> positions[i] < 0x1_0000_0000_0000_0000
  }

  /** What `commit` writes. */
  function Saved(positions: seq<nat>, crc: seq<Byte> -> Word32): (data: seq<Byte>)
  {
    var body := if |positions| == 1 then Le(positions[0], 8) else Le(|positions|, 4) + U64s(positions);
    body + Le(crc(body), 4)
  }

  /** The file can be taken as progress over `n` shards. */
  predicate Accepted(data: seq<Byte>, n: nat, crc: seq<Byte> -> Word32)
  {
    var head := Head(n);
    && |data| == head + 8 * n + 4
    && (n != 1 ==> FieldAt(data, 0, 4) == n)
    && crc(data[..head + 8 * n]) == FieldAt(data, head + 8 * n, 4)
  }

  function Head(n: nat): (len: nat)
  {
    if n == 1 then 0 else 4
  }

  method Save(positions: seq<nat>, crc: seq<Byte> -> Word32) returns (data: seq<Byte>)
    ensures data == Saved(positions, crc)
  {
    if |positions| == 1 {
      var body := Le(positions[0], 8);
      data := body + Le(crc(body), 4);
    } else {
      var body := Le(|positions|, 4);
      for i := 0 to |positions|
        invariant body == Le(|positions|, 4) + U64s(positions[..i])
      {
        assert positions[..i + 1][..i] == positions[..i];
        body := body + Le(positions[i], 8);
      }
      assert positions[..|positions|] == positions;
      data := body + Le(crc(body), 4);
    }
  }

  method Load(file: File, n: nat, crc: seq<Byte> -> Word32) returns (positions: seq<nat>)
    ensures LoadedFrom(file, n, crc, positions)
  {
    var zeros := seq(n, i => 0);
    if file.Missing? {
      return zeros;
    }
    var data := file.data;
    if n == 1 {
      if |data| != 12 {
        return zeros;
      }
      if crc(data[..8]) != FieldAt(data, 8, 4) {
        return zeros;
      }
      return [FieldAt(data, 0, 8)];
    }
    if |data| < 4 {
      return zeros;
    }
    var count := FieldAt(data, 0, 4);
    if |data| != 4 + count * 8 + 4 || count != n {
      return zeros;
    }
    var bodyEnd := 4 + count * 8;
    if crc(data[..bodyEnd]) != FieldAt(data, bodyEnd, 4) {
      return zeros;
    }
    positions := [];
    for i := 0 to count
      invariant |positions| == i
      invariant forall j :: 0 <= j < i ==> positions[j] == FieldAt(data, 4 + 8 * j, 8)
    {
      positions := positions + [FieldAt(data, 4 + 8 * i, 8)];
    }
  }

  /** A reopened tailer over the same shards resumes exactly where it committed. */
  lemma CommitThenOpen(positions: seq<nat>, crc: seq<Byte> -> Word32)
    requires Storable(positions)
    ensures var data := Saved(positions, crc);
            && Accepted(data, |positions|, crc)
            && forall i :: 0 <= i < |positions| ==> FieldAt(data, Head(|positions|) + 8 * i, 8) == positions[i]
  {
    Widths();
    var n := |positions|;
    var data := Saved(positions, crc);
    if n == 1 {
      var body := Le(positions[0], 8);
      assert data[..8] == body;
      FieldAfter(body, crc(body), 4, []);
      assert data == body + Le(crc(body), 4) + [];
      FieldAfter([], positions[0], 8, Le(crc(body), 4));
      assert data == [] + Le(positions[0], 8) + Le(crc(body), 4);
    } else {
      ManyThenOpen(positions, crc);
    }
  }

  lemma CountFirst(a: seq<Byte>, b: seq<Byte>, c: seq<Byte>)
    ensures (a + b) + c == [] + a + (b + c)
  {
  }

  lemma ManyThenOpen(positions: seq<nat>, crc: seq<Byte> -> Word32)
    requires |positions| != 1 && |positions| < Pow256(4)
    requires forall i :: 0 <= i < |positions| ==> positions[i] < Pow256(8)
    ensures var data := Saved(positions, crc);
            && Accepted(data, |positions|, crc)
            && forall i :: 0 <= i < |positions| ==> FieldAt(data, 4 + 8 * i, 8) == positions[i]
  {
    Widths();
    var n := |positions|;
    var body := Le(n, 4) + U64s(positions);
    var sum := Le(crc(body), 4);
    var data := Saved(positions, crc);
    assert data == body + sum;
    assert data[..4 + 8 * n] == body;
    assert data == body + sum + [];
    FieldAfter(body, crc(body), 4, []);
    CountFirst(Le(n, 4), U64s(positions), sum);
    FieldAfter([], n, 4, U64s(positions) + sum);
    forall i | 0 <= i < n
      ensures FieldAt(data, 4 + 8 * i, 8) == positions[i]
    {
      U64At(Le(n, 4), positions, sum, i);
    }
  }

  /** Progress saved for another shard count is never taken for this one: the tailer starts over. */
  lemma OtherShardCountIgnored(positions: seq<nat>, n: nat, crc: seq<Byte> -> Word32)
    requires |positions| != n && |positions| < 0x1_0000_0000
    ensures !Accepted(Saved(positions, crc), n, crc)
  {
  }

  // ── Replacing the file ─────────────────────────────────────────────────────

  /** The file is one of the attempted commits from number `acked - 1` on, or missing before the first answered one. */
  ghost predicate Recent(f: File, attempts: seq<seq<nat>>, acked: nat, crc: seq<Byte> -> Word32)
  {
    || (f.Missing? && acked == 0)
    || exists i :: 0 <= i < |attempts| && acked <= i + 1 && f == Contents(Saved(attempts[i], crc))
  }

  ghost predicate Sound(shards: nat, crc: seq<Byte> -> Word32, file: File, stable: File, attempts: seq<seq<nat>>, acked: nat)
  {
    && acked <= |attempts|
    && (forall i :: 0 <= i < |attempts| ==> |attempts[i]| == shards && Storable(attempts[i]))
    && Recent(file, attempts, acked, crc) && Recent(stable, attempts, acked, crc)
  }

  lemma Begun(shards: nat, crc: seq<Byte> -> Word32, file: File, stable: File, attempts: seq<seq<nat>>, acked: nat, positions: seq<nat>)
    requires Sound(shards, crc, file, stable, attempts, acked) && |positions| == shards && Storable(positions)
    ensures Sound(shards, crc, file, stable, attempts + [positions], acked)
  {
    Older(file, attempts, positions, acked, crc);
    Older(stable, attempts, positions, acked, crc);
  }

  lemma Renamed(shards: nat, crc: seq<Byte> -> Word32, file: File, stable: File, attempts: seq<seq<nat>>, acked: nat, positions: seq<nat>)
    requires Sound(shards, crc, file, stable, attempts, acked) && attempts != [] && attempts[|attempts| - 1] == positions
    ensures var saved := Contents(Saved(positions, crc));
            Sound(shards, crc, saved, stable, attempts, acked) && Sound(shards, crc, saved, saved, attempts, |attempts|)
  {
    Newest(attempts, positions, acked, crc);
  }

  /**
   `file` is what the name refers to now, `stable` what the directory is certain to name after a
   crash, `tmp` the temporary file.  `attempts` are the positions of all commits begun so far, and
   `acked` counts them up to the last one that was answered Ok.
   */
  class ProgressFile {
    const shards: nat
    const crc: seq<Byte> -> Word32
    var tmp: File
    var file: File
    var stable: File
    ghost var attempts: seq<seq<nat>>
    ghost var acked: nat

    ghost predicate Valid()
      reads this
    {
      Sound(shards, crc, file, stable, attempts, acked)
    }

    constructor (shards: nat, crc: seq<Byte> -> Word32)
      ensures Valid() && this.shards == shards && this.crc == crc && attempts == [] && acked == 0
    {
      this.shards, this.crc := shards, crc;
      tmp, file, stable := Missing, Missing, Missing;
      attempts, acked := [], 0;
    }

    /** Create, write, sync, rename, sync the directory; step `stop` fails, after `written` bytes if it is the write. */
    method Commit(positions: seq<nat>, stop: nat, written: nat) returns (ok: bool)
      requires Valid() && |positions| == shards && Storable(positions)
      modifies this
      ensures Valid() && attempts == old(attempts) + [positions]
      ensures ok <==> stop >= 5
      ensures ok ==> acked == |attempts| && file == stable == Contents(Saved(positions, crc))
      ensures !ok ==> acked == old(acked) && stable == old(stable)
      ensures stop <= 3 ==> file == old(file)
    {
      attempts := attempts + [positions];
      Begun(shards, crc, file, stable, old(attempts), acked, positions);
      if stop == 0 {
        return false;
      }
      tmp := Contents([]);
      var data := Save(positions, crc);
      if stop == 1 {
        tmp := Contents(if written <= |data| then data[..written] else data);
        return false;
      }
      tmp := Contents(data);
      if stop == 2 || stop == 3 {
        return false;
      }
      file, tmp := tmp, Missing;
      Renamed(shards, crc, old(file), stable, attempts, acked, positions);
      if stop == 4 {
        return false;
      }
      stable, acked := file, |attempts|;
      return true;
    }

    /** A rename whose directory was not synced may be undone by a crash. */
    method Crash(kept: bool)
      requires Valid()
      modifies this
      ensures Valid() && attempts == old(attempts) && acked == old(acked)
      ensures file == stable == if kept then old(file) else old(stable)
    {
      if kept {
        stable := file;
      } else {
        file := stable;
      }
    }

    /**
     Whatever failed and crashed before, a tailer resumes at one of the attempted commits, whole, and
     never before the last one that was answered; at zero only if none was.
     */
    method Open() returns (positions: seq<nat>)
      requires Valid()
      ensures positions in attempts[Last(acked)..] || (acked == 0 && positions == seq(shards, i => 0))
    {
      positions := Load(file, shards, crc);
      RecentLoads(file, attempts, acked, shards, crc, positions);
    }
  }

  lemma Newest(attempts: seq<seq<nat>>, positions: seq<nat>, acked: nat, crc: seq<Byte> -> Word32)
    requires attempts != [] && attempts[|attempts| - 1] == positions && acked <= |attempts|
    ensures Recent(Contents(Saved(positions, crc)), attempts, acked, crc)
    ensures Recent(Contents(Saved(positions, crc)), attempts, |attempts|, crc)
  {
    assert Contents(Saved(positions, crc)) == Contents(Saved(attempts[|attempts| - 1], crc));
  }

  function Last(acked: nat): (i: nat)
  {
    if acked == 0 then 0 else acked - 1
  }

  /** `positions` is what loading the file over `n` shards gives. */
  ghost predicate LoadedFrom(file: File, n: nat, crc: seq<Byte> -> Word32, positions: seq<nat>)
  {
    && |positions| == n
    && (file.Contents? && Accepted(file.data, n, crc) ==>
          forall i :: 0 <= i < n ==> positions[i] == FieldAt(file.data, Head(n) + 8 * i, 8))
    && (!(file.Contents? && Accepted(file.data, n, crc)) ==> forall i :: 0 <= i < n ==> positions[i] == 0)
  }

  lemma RecentLoads(f: File, attempts: seq<seq<nat>>, acked: nat, n: nat, crc: seq<Byte> -> Word32, positions: seq<nat>)
    requires Recent(f, attempts, acked, crc) && LoadedFrom(f, n, crc, positions)
    requires forall i :: 0 <= i < |attempts| ==> |attempts[i]| == n && Storable(attempts[i])
    requires acked <= |attempts|
    ensures positions in attempts[Last(acked)..] || (acked == 0 && positions == seq(n, i => 0))
  {
    if f.Contents? {
      var i :| 0 <= i < |attempts| && acked <= i + 1 && f == Contents(Saved(attempts[i], crc));
      SavedLoads(attempts[i], crc, positions);
      assert attempts[i] == attempts[Last(acked)..][i - Last(acked)];
    }
  }

  lemma SavedLoads(saved: seq<nat>, crc: seq<Byte> -> Word32, positions: seq<nat>)
    requires Storable(saved) && LoadedFrom(Contents(Saved(saved, crc)), |saved|, crc, positions)
    ensures positions == saved
  {
    CommitThenOpen(saved, crc);
  }

  lemma Older(f: File, attempts: seq<seq<nat>>, positions: seq<nat>, acked: nat, crc: seq<Byte> -> Word32)
    requires Recent(f, attempts, acked, crc)
    ensures Recent(f, attempts + [positions], acked, crc)
  {
    if i :| 0 <= i < |attempts| && acked <= i + 1 && f == Contents(Saved(attempts[i], crc)) {
      assert (attempts + [positions])[i] == attempts[i];
    }
  }
}
