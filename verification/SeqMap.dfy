/**
 The per-stream index over the log and its checkpoint.

 Each shard of the log is a sequence of records; the index maps (stream, seq) to the place of the
 record and keeps the next seq of every stream.  The index is rebuilt from a full scan, or loaded
 from a checkpoint and completed by scanning each shard from the checkpoint's cursor.
 */
module SeqMap {
  import opened Wrappers

  datatype Key = Key(stream: nat, num: nat)
  datatype Entry = Rec(key: Key) | Unreadable
  datatype Place = Place(shard: nat, local: nat)

  /** One sequence of records per shard. */
  type Log = seq<seq<Entry>>

  datatype Index = Index(places: map<Key, Place>, nexts: map<nat, nat>)
  datatype Checkpoint = Checkpoint(cursors: seq<nat>, index: Index)

  const EMPTY := Index(map[], map[])

  predicate AtPlace(log: Log, p: Place, key: Key)
  {
    p.shard < |log| && p.local < |log[p.shard]| && log[p.shard][p.local] == Rec(key)
  }

  /** No (stream, seq) is stored twice. */
  ghost predicate Unique(log: Log)
  {
    forall key, p, q :: AtPlace(log, p, key) && AtPlace(log, q, key) ==> p == q
  }

  /** The map is the index of the log: every record, and nothing else. */
  ghost predicate PlacesOf(log: Log, places: map<Key, Place>)
  {
    && (forall key, p :: AtPlace(log, p, key) ==> key in places && places[key] == p)
    && (forall key :: key in places ==> AtPlace(log, places[key], key))
  }

  /** A stream's counter is beyond every seq of the stream. */
  ghost predicate Beyond(nexts: map<nat, nat>, key: Key)
  {
    key.stream in nexts && key.num < nexts[key.stream]
  }

  ghost predicate NextsCover(log: Log, nexts: map<nat, nat>)
  {
    forall key, p :: AtPlace(log, p, key) ==> Beyond(nexts, key)
  }

  /** Records one record: its place, and a counter beyond its seq. */
  function Put(index: Index, key: Key, p: Place): (r: Index)
    ensures key in r.places && r.places[key] == p && Beyond(r.nexts, key)
    ensures forall k :: Beyond(index.nexts, k) ==> Beyond(r.nexts, k)
    ensures r.nexts[key.stream] == 1 || r.nexts[key.stream] == key.num + 1
            || (key.stream in index.nexts && r.nexts[key.stream] == index.nexts[key.stream])
  {
    var cur := if key.stream in index.nexts then index.nexts[key.stream] else 1;
    Index(index.places[key := p], index.nexts[key.stream := if key.num >= cur then key.num + 1 else cur])
  }

  // ── Loading a checkpoint ───────────────────────────────────────────────────

  /** The scan, at record `l` of shard `s`, has been at place `p`. */
  predicate Visited(cursors: seq<nat>, s: nat, l: nat, p: Place)
  {
    && p.shard < |cursors| && cursors[p.shard] <= p.local
    && (p.shard < s || (p.shard == s && p.local < l))
  }

  /** The scan goes shard by shard, each from its cursor on. */
  predicate NotAfter(p: Place, q: Place)
  {
    p.shard < q.shard || (p.shard == q.shard && p.local <= q.local)
  }

  /** `places` is the base map overridden by the visited records, the last one winning. */
  ghost predicate Overlay(log: Log, cursors: seq<nat>, s: nat, l: nat, base: map<Key, Place>, places: map<Key, Place>)
  {
    && (forall key, p :: AtPlace(log, p, key) && Visited(cursors, s, l, p) ==>
                           && key in places && NotAfter(p, places[key])
                           && AtPlace(log, places[key], key) && Visited(cursors, s, l, places[key]))
    && (forall key :: key in base ==> key in places)
    && (forall key :: key in places ==>
                        || (key in base && places[key] == base[key])
                        || (AtPlace(log, places[key], key) && Visited(cursors, s, l, places[key])))
  }

  /** `nexts` is the base raised just beyond the visited records. */
  ghost predicate Raised(log: Log, cursors: seq<nat>, s: nat, l: nat, base: map<nat, nat>, nexts: map<nat, nat>)
  {
    && (forall key, p :: AtPlace(log, p, key) && Visited(cursors, s, l, p) ==> Beyond(nexts, key))
    && (forall key :: Beyond(base, key) ==> Beyond(nexts, key))
    && (forall stream :: stream in nexts ==> HasReason(log, cursors, s, l, base, stream, nexts[stream]))
  }

  ghost predicate HasReason(log: Log, cursors: seq<nat>, s: nat, l: nat, base: map<nat, nat>, stream: nat, next: nat)
  {
    || (stream in base && base[stream] == next)
    || exists key, p :: AtPlace(log, p, key) && Visited(cursors, s, l, p) && key.stream == stream && (next == 1 || next == key.num + 1)
  }

  lemma OverlayStep(log: Log, cursors: seq<nat>, s: nat, l: nat, base: map<Key, Place>, index: Index, key: Key)
    requires s < |cursors| && cursors[s] <= l && AtPlace(log, Place(s, l), key)
    requires Overlay(log, cursors, s, l, base, index.places)
    ensures Overlay(log, cursors, s, l + 1, base, Put(index, key, Place(s, l)).places)
  {
    var here := Place(s, l);
    var places := Put(index, key, here).places;
    assert Visited(cursors, s, l + 1, here);
    forall k, p | AtPlace(log, p, k) && Visited(cursors, s, l + 1, p)
      ensures k in places && NotAfter(p, places[k]) && AtPlace(log, places[k], k) && Visited(cursors, s, l + 1, places[k])
    {
      if k != key {
        assert Visited(cursors, s, l, p);
      }
    }
  }

  lemma RaisedStep(log: Log, cursors: seq<nat>, s: nat, l: nat, base: map<nat, nat>, index: Index, key: Key)
    requires s < |cursors| && cursors[s] <= l && AtPlace(log, Place(s, l), key)
    requires Raised(log, cursors, s, l, base, index.nexts)
    ensures Raised(log, cursors, s, l + 1, base, Put(index, key, Place(s, l)).nexts)
  {
  }

  ghost predicate SameView(log: Log, cursors: seq<nat>, s: nat, l: nat, t: nat, m: nat)
  {
    forall key, p :: AtPlace(log, p, key) ==> (Visited(cursors, s, l, p) <==> Visited(cursors, t, m, p))
  }

  lemma SameOverlay(log: Log, cursors: seq<nat>, s: nat, l: nat, t: nat, m: nat, base: map<Key, Place>, places: map<Key, Place>)
    requires SameView(log, cursors, s, l, t, m) && Overlay(log, cursors, s, l, base, places)
    ensures Overlay(log, cursors, t, m, base, places)
  {
  }

  lemma SameRaised(log: Log, cursors: seq<nat>, s: nat, l: nat, t: nat, m: nat, base: map<nat, nat>, nexts: map<nat, nat>)
    requires SameView(log, cursors, s, l, t, m) && Raised(log, cursors, s, l, base, nexts)
    ensures Raised(log, cursors, t, m, base, nexts)
  {
  }

  /** Loading gives the base map overridden by everything at or after the cursors. */
  ghost predicate Loaded(log: Log, ckpt: Checkpoint, index: Index)
  {
    LoadedTo(log, ckpt, |ckpt.cursors|, index)
  }

  /** The load has done shards below `s`. */
  ghost predicate LoadedTo(log: Log, ckpt: Checkpoint, s: nat, index: Index)
  {
    && Overlay(log, ckpt.cursors, s, 0, ckpt.index.places, index.places)
    && Raised(log, ckpt.cursors, s, 0, ckpt.index.nexts, index.nexts)
  }

  predicate ReadableFrom(entries: seq<Entry>, from: nat)
  {
    forall l :: from <= l < |entries| ==> entries[l].Rec?
  }

  /** Every record the scan meets in the first `n` shards decodes. */
  predicate ReadableTo(log: Log, cursors: seq<nat>, n: nat)
    requires n <= |log| == |cursors|
  {
    forall s :: 0 <= s < n ==> ReadableFrom(log[s], cursors[s])
  }

  /** Scans one shard from its cursor into the index; a record that does not decode ends the load. */
  method ScanShard(log: Log, ckpt: Checkpoint, s: nat, index: Index) returns (r: Option<Index>)
    requires s < |log| == |ckpt.cursors|
    requires LoadedTo(log, ckpt, s, index)
    ensures r.Some? <==> ReadableFrom(log[s], ckpt.cursors[s])
    ensures r.Some? ==> LoadedTo(log, ckpt, s + 1, r.value)
  {
    var cursors, base := ckpt.cursors, ckpt.index;
    var l, cur := cursors[s], index;
    assert SameView(log, cursors, s, 0, s, l);
    SameOverlay(log, cursors, s, 0, s, l, base.places, index.places);
    SameRaised(log, cursors, s, 0, s, l, base.nexts, index.nexts);
    while l < |log[s]|
      invariant cursors[s] <= l
      invariant forall k :: cursors[s] <= k < l && k < |log[s]| ==> log[s][k].Rec?
      invariant Overlay(log, cursors, s, l, base.places, cur.places) && Raised(log, cursors, s, l, base.nexts, cur.nexts)
    {
      match log[s][l]
      case Unreadable =>
        return None;
      case Rec(key) =>
        assert AtPlace(log, Place(s, l), key);
        OverlayStep(log, cursors, s, l, base.places, cur, key);
        RaisedStep(log, cursors, s, l, base.nexts, cur, key);
        cur := Put(cur, key, Place(s, l));
        l := l + 1;
    }
    assert SameView(log, cursors, s, l, s + 1, 0);
    SameOverlay(log, cursors, s, l, s + 1, 0, base.places, cur.places);
    SameRaised(log, cursors, s, l, s + 1, 0, base.nexts, cur.nexts);
    r := Some(cur);
  }

  lemma NothingVisited(log: Log, ckpt: Checkpoint)
    ensures LoadedTo(log, ckpt, 0, ckpt.index)
  {
  }

  /** The checkpoint's index, completed by an incremental scan of every shard. */
  method LoadCheckpoint(log: Log, ckpt: Checkpoint) returns (r: Option<Index>)
    ensures r.Some? <==> |ckpt.cursors| == |log| && ReadableTo(log, ckpt.cursors, |log|)
    ensures r.Some? ==> Loaded(log, ckpt, r.value)
  {
    if |ckpt.cursors| != |log| {
      return None;
    }
    r := Some(ckpt.index);
    NothingVisited(log, ckpt);
    var s := 0;
    while s < |log| && r.Some?
      invariant s <= |log| && (r.Some? <==> ReadableTo(log, ckpt.cursors, s))
      invariant r.Some? ==> LoadedTo(log, ckpt, s, r.value)
    {
      r := ScanShard(log, ckpt, s, r.value);
      s := s + 1;
    }
  }

  // ── Writing a checkpoint ───────────────────────────────────────────────────

  /** Every mapped place is below its shard's cursor, and each cursor is as low as that allows. */
  ghost predicate Tight(cursors: seq<nat>, places: map<Key, Place>)
  {
    && (forall key :: key in places ==> places[key].shard < |cursors| && places[key].local < cursors[places[key].shard])
    && (forall s :: 0 <= s < |cursors| && cursors[s] > 0 ==> Attained(places, Place(s, cursors[s] - 1)))
  }

  ghost predicate Attained(places: map<Key, Place>, p: Place)
  {
    exists key :: key in places && places[key] == p
  }

  /** One past the highest mapped record of each shard. */
  method CheckpointCursors(places: map<Key, Place>, numShards: nat) returns (cursors: seq<nat>)
    requires forall key :: key in places ==> places[key].shard < numShards
    ensures |cursors| == numShards && Tight(cursors, places)
  {
    cursors := seq(numShards, i => 0);
    var rest := places.Keys;
    while rest != {}
      invariant |cursors| == numShards && rest <= places.Keys
      invariant forall key :: key in places && key !in rest ==> places[key].local < cursors[places[key].shard]
      invariant forall s :: 0 <= s < numShards && cursors[s] > 0 ==> Attained(places, Place(s, cursors[s] - 1))
      decreases |rest|
    {
      var key :| key in rest;
      var p := places[key];
      if p.local + 1 > cursors[p.shard] {
        cursors := cursors[p.shard := p.local + 1];
        assert Attained(places, Place(p.shard, p.local));
      }
      rest := rest - {key};
    }
  }

  // ── Checkpoint refinement ──────────────────────────────────────────────────

  ghost predicate Sound(log: Log, places: map<Key, Place>)
  {
    forall key :: key in places ==> AtPlace(log, places[key], key)
  }

  ghost predicate Extends(log: Log, log': Log)
  {
    |log| == |log'| && forall s :: 0 <= s < |log| ==> log[s] <= log'[s]
  }

  predicate Lengths(log: Log, kept: seq<nat>)
  {
    |kept| == |log| && forall s :: 0 <= s < |log| ==> kept[s] <= |log[s]|
  }

  /** What is left when shard `s` keeps its first `kept[s]` records. */
  function Cut(log: Log, kept: seq<nat>): (r: Log)
    requires Lengths(log, kept)
    ensures |r| == |log| && forall s :: 0 <= s < |log| ==> r[s] == log[s][..kept[s]]
  {
    seq(|log|, s requires 0 <= s < |log| => log[s][..kept[s]])
  }

  lemma CutAt(log: Log, kept: seq<nat>, p: Place, key: Key)
    requires Lengths(log, kept)
    ensures AtPlace(Cut(log, kept), p, key) <==> AtPlace(log, p, key) && p.local < kept[p.shard]
  {
  }

  lemma ExtendAt(log: Log, log': Log, p: Place, key: Key)
    requires Extends(log, log') && AtPlace(log, p, key)
    ensures AtPlace(log', p, key)
  {
    assert log[p.shard] <= log'[p.shard];
  }

  lemma CutUnique(log: Log, kept: seq<nat>)
    requires Unique(log) && Lengths(log, kept)
    ensures Unique(Cut(log, kept))
  {
    forall key, p, q | AtPlace(Cut(log, kept), p, key) && AtPlace(Cut(log, kept), q, key)
      ensures p == q
    {
      CutAt(log, kept, p, key);
      CutAt(log, kept, q, key);
    }
  }

  /** Every record below its shard's cursor is mapped. */
  ghost predicate AllMapped(log: Log, cursors: seq<nat>, places: map<Key, Place>)
    requires |cursors| == |log|
  {
    forall key, p :: AtPlace(log, p, key) && p.local < cursors[p.shard] ==> key in places
  }

  predicate AtMost(a: seq<nat>, b: seq<nat>)
    requires |a| == |b|
  {
    forall s :: 0 <= s < |a| ==> a[s] <= b[s]
  }

  lemma LoadedComplete(log: Log, kept: seq<nat>, ckpt: Checkpoint, index: Index)
    requires Unique(log) && Lengths(log, kept) && |ckpt.cursors| == |log|
    requires Sound(log, ckpt.index.places) && Tight(ckpt.cursors, ckpt.index.places)
    requires Loaded(Cut(log, kept), ckpt, index)
    requires AtMost(ckpt.cursors, kept) && AllMapped(log, ckpt.cursors, ckpt.index.places)
    ensures PlacesOf(Cut(log, kept), index.places)
  {
    var left, base := Cut(log, kept), ckpt.index.places;
    forall key, p | AtPlace(left, p, key)
      ensures key in index.places && index.places[key] == p
    {
      CutAt(log, kept, p, key);
      assert Visited(ckpt.cursors, |ckpt.cursors|, 0, p) || key in base;
      LoadedPlace(log, kept, ckpt, index, key);
    }
    forall key | key in index.places
      ensures AtPlace(left, index.places[key], key)
    {
      LoadedPlace(log, kept, ckpt, index, key);
    }
  }

  /** While the cursors survived, whatever is mapped is where the map says. */
  lemma LoadedPlace(log: Log, kept: seq<nat>, ckpt: Checkpoint, index: Index, key: Key)
    requires Lengths(log, kept) && |ckpt.cursors| == |log|
    requires Sound(log, ckpt.index.places) && Tight(ckpt.cursors, ckpt.index.places)
    requires Loaded(Cut(log, kept), ckpt, index) && AtMost(ckpt.cursors, kept) && key in index.places
    ensures AtPlace(Cut(log, kept), index.places[key], key) && AtPlace(log, index.places[key], key)
  {
    CutAt(log, kept, index.places[key], key);
  }

  lemma LoadedNeedsCursors(log: Log, kept: seq<nat>, ckpt: Checkpoint, index: Index, s: nat)
    requires Unique(log) && Lengths(log, kept) && |ckpt.cursors| == |log|
    requires Sound(log, ckpt.index.places) && Tight(ckpt.cursors, ckpt.index.places)
    requires Loaded(Cut(log, kept), ckpt, index)
    requires s < |log| && ckpt.cursors[s] > kept[s]
    ensures !PlacesOf(Cut(log, kept), index.places)
  {
    var p := Place(s, ckpt.cursors[s] - 1);
    assert Attained(ckpt.index.places, p);
    var key :| key in ckpt.index.places && ckpt.index.places[key] == p;
    CutAt(log, kept, index.places[key], key);
    CutAt(log, kept, p, key);
  }

  lemma LoadedNeedsMapped(log: Log, kept: seq<nat>, ckpt: Checkpoint, index: Index, key: Key, p: Place)
    requires Lengths(log, kept) && |ckpt.cursors| == |log| && Loaded(Cut(log, kept), ckpt, index)
    requires AtPlace(log, p, key) && p.local < ckpt.cursors[p.shard] <= kept[p.shard] && key !in ckpt.index.places
    ensures !PlacesOf(Cut(log, kept), index.places)
  {
    CutAt(log, kept, p, key);
    assert !Visited(ckpt.cursors, |ckpt.cursors|, 0, p);
  }

  /**
   A checkpoint taken of `log0` and loaded after the log grew to `log` and a crash kept a prefix of
   every shard gives the true index exactly when every cursor lies within what survived and no
   record below a cursor was missing from the checkpointed map.
   */
  lemma CheckpointExactIff(log0: Log, log: Log, kept: seq<nat>, ckpt: Checkpoint, index: Index)
    requires Extends(log0, log) && Unique(log) && Lengths(log, kept) && |ckpt.cursors| == |log|
    requires Sound(log0, ckpt.index.places) && Tight(ckpt.cursors, ckpt.index.places)
    requires Loaded(Cut(log, kept), ckpt, index)
    ensures PlacesOf(Cut(log, kept), index.places) <==>
            AtMost(ckpt.cursors, kept) && AllMapped(log, ckpt.cursors, ckpt.index.places)
  {
    forall key | key in ckpt.index.places
      ensures AtPlace(log, ckpt.index.places[key], key)
    {
      ExtendAt(log0, log, ckpt.index.places[key], key);
    }
    if !AtMost(ckpt.cursors, kept) {
      var s :| 0 <= s < |log| && ckpt.cursors[s] > kept[s];
      LoadedNeedsCursors(log, kept, ckpt, index, s);
    } else if !AllMapped(log, ckpt.cursors, ckpt.index.places) {
      var key, p :| AtPlace(log, p, key) && p.local < ckpt.cursors[p.shard] && key !in ckpt.index.places;
      LoadedNeedsMapped(log, kept, ckpt, index, key, p);
    } else {
      LoadedComplete(log, kept, ckpt, index);
    }
  }

  /** Without a crash in between, a complete map at checkpoint time is all it takes. */
  lemma CheckpointRefines(log0: Log, log: Log, ckpt: Checkpoint, index: Index)
    requires Extends(log0, log) && Unique(log) && |ckpt.cursors| == |log|
    requires PlacesOf(log0, ckpt.index.places) && Tight(ckpt.cursors, ckpt.index.places)
    requires Loaded(log, ckpt, index)
    ensures PlacesOf(log, index.places)
    ensures NextsCover(log0, ckpt.index.nexts) ==> NextsCover(log, index.nexts)
  {
    var kept := seq(|log|, s requires 0 <= s < |log| => |log[s]|);
    assert forall s :: 0 <= s < |log| ==> log[s][..kept[s]] == log[s];
    assert Cut(log, kept) == log;
    forall s | 0 <= s < |log|
      ensures ckpt.cursors[s] <= |log0[s]|
    {
      if ckpt.cursors[s] > 0 {
        var p := Place(s, ckpt.cursors[s] - 1);
        assert Attained(ckpt.index.places, p);
        var key :| key in ckpt.index.places && ckpt.index.places[key] == p;
        assert AtPlace(log0, p, key);
      }
      assert log0[s] <= log[s];
    }
    forall key, p | AtPlace(log, p, key) && p.local < ckpt.cursors[p.shard]
      ensures key in ckpt.index.places
    {
      assert log0[p.shard] <= log[p.shard];
      assert AtPlace(log0, p, key);
    }
    CheckpointExactIff(log0, log, kept, ckpt, index);
    if NextsCover(log0, ckpt.index.nexts) {
      CountersCoverSurvivors(log0, log, kept, ckpt, index);
    }
  }

  /** After the first crash the loaded counters are beyond every surviving record, whatever the checkpoint missed. */
  lemma CountersCoverSurvivors(log0: Log, log: Log, kept: seq<nat>, ckpt: Checkpoint, index: Index)
    requires Extends(log0, log) && Lengths(log, kept) && |ckpt.cursors| == |log|
    requires Sound(log0, ckpt.index.places) && Tight(ckpt.cursors, ckpt.index.places) && NextsCover(log0, ckpt.index.nexts)
    requires Loaded(Cut(log, kept), ckpt, index)
    ensures NextsCover(Cut(log, kept), index.nexts)
  {
    forall key, p | AtPlace(Cut(log, kept), p, key)
      ensures Beyond(index.nexts, key)
    {
      CutAt(log, kept, p, key);
      if p.local < ckpt.cursors[p.shard] {
        var q := Place(p.shard, ckpt.cursors[p.shard] - 1);
        assert Attained(ckpt.index.places, q);
        var k :| k in ckpt.index.places && ckpt.index.places[k] == q;
        assert AtPlace(log0, q, k);
        assert log0[p.shard] <= log[p.shard];
        assert AtPlace(log0, p, key);
      }
    }
  }

  // ── Rebuilding from a full scan ────────────────────────────────────────────

  /** `order` lists the places of the log, each at least once. */
  ghost predicate Lists(log: Log, order: seq<Place>)
  {
    && (forall i :: 0 <= i < |order| ==> order[i].shard < |log| && order[i].local < |log[order[i].shard]|)
    && (forall s, l :: 0 <= s < |log| && 0 <= l < |log[s]| && log[s][l].Rec? ==> Place(s, l) in order)
  }

  predicate SomeShardEmpty(log: Log)
  {
    exists s :: 0 <= s < |log| && log[s] == []
  }

  /** What start-up without a checkpoint leaves: nothing at all when some shard has no durable record. */
  ghost predicate Rebuilt(log: Log, index: Index)
  {
    && (SomeShardEmpty(log) ==> index == EMPTY)
    && (!SomeShardEmpty(log) ==>
          && Sound(log, index.places) && NextsCover(log, index.nexts)
          && (forall key, p :: AtPlace(log, p, key) ==> key in index.places))
  }

  method Rebuild(log: Log, order: seq<Place>) returns (index: Index)
    requires Lists(log, order)
    ensures Rebuilt(log, index)
  {
    index := EMPTY;
    if exists s :: 0 <= s < |log| && log[s] == [] {
      return;
    }
    for i := 0 to |order|
      invariant forall j :: 0 <= j < i && log[order[j].shard][order[j].local].Rec? ==>
                              var key := log[order[j].shard][order[j].local].key;
                              key in index.places && Beyond(index.nexts, key)
      invariant Sound(log, index.places)
    {
      var p := order[i];
      match log[p.shard][p.local]
      case Unreadable =>
      case Rec(key) =>
        assert AtPlace(log, p, key);
        index := Put(index, key, p);
    }
    forall key, p | AtPlace(log, p, key)
      ensures key in index.places && Beyond(index.nexts, key)
    {
      assert log[p.shard][p.local].Rec?;
      assert Place(p.shard, p.local) in order;
      var j :| 0 <= j < |order| && order[j] == p;
    }
  }

  /** The rebuilt index is the log's exactly when no key is stored twice, and no shard is empty or nothing readable was stored anyway. */
  lemma RebuildExactIff(log: Log, index: Index)
    requires Rebuilt(log, index)
    ensures PlacesOf(log, index.places) <==> Unique(log) && Rebuildable(log)
  {
    if PlacesOf(log, index.places) && SomeShardEmpty(log) {
      forall key, p
        ensures !AtPlace(log, p, key)
      {
      }
    }
  }

  /** A full rebuild has something to find in every shard, or nothing to find at all. */
  ghost predicate Rebuildable(log: Log)
  {
    !SomeShardEmpty(log) || forall key, p :: !AtPlace(log, p, key)
  }

  // ── Whole runs ─────────────────────────────────────────────────────────────

  /** `inflight` holds seqs handed out whose record is not in the log yet. */
  datatype State = State(log: Log, durable: seq<nat>, index: Index, inflight: set<Key>, ckpt: Option<Checkpoint>)

  datatype Event =
    | Allocate(stream: nat)
    | AppendTo(key: Key, shard: nat)
    | GiveUp(key: Key)
    | MapRecord(place: Place)
    | Sync(durable: seq<nat>)
    | WriteCheckpoint(cursors: seq<nat>)
    | CrashAndLoad(kept: seq<nat>)
    | CrashAndRebuild(kept: seq<nat>)

  function NextOf(nexts: map<nat, nat>, stream: nat): (n: nat)
  {
    if stream in nexts then nexts[stream] else 1
  }

  predicate Survives(st: State, kept: seq<nat>)
  {
    |st.durable| == |st.log| && Lengths(st.log, kept) && AtMost(st.durable, kept)
  }

  ghost predicate Next(st: State, e: Event, st': State)
  {
    match e
    case Allocate(stream) =>
      var n := NextOf(st.index.nexts, stream);
      st' == st.(index := st.index.(nexts := st.index.nexts[stream := n + 1]), inflight := st.inflight + {Key(stream, n)})
    case AppendTo(key, s) =>
      && key in st.inflight && s < |st.log|
      && st' == st.(log := st.log[s := st.log[s] + [Rec(key)]], inflight := st.inflight - {key})
    case GiveUp(key) =>
      st' == st.(inflight := st.inflight - {key})
    case MapRecord(p) =>
      && p.shard < |st.log| && p.local < |st.log[p.shard]| && st.log[p.shard][p.local].Rec?
      && st' == st.(index := st.index.(places := st.index.places[st.log[p.shard][p.local].key := p]))
    case Sync(durable) =>
      Lengths(st.log, durable) && |st.durable| == |st.log| && AtMost(st.durable, durable) && st' == st.(durable := durable)
    case WriteCheckpoint(cursors) =>
      && |cursors| == |st.log| && Tight(cursors, st.index.places)
      && st' == st.(ckpt := Some(Checkpoint(cursors, st.index)))
    case CrashAndLoad(kept) =>
      && st.ckpt.Some? && Survives(st, kept) && |st.ckpt.value.cursors| == |st.log|
      && Loaded(Cut(st.log, kept), st.ckpt.value, st'.index)
      && st' == State(Cut(st.log, kept), kept, st'.index, {}, st.ckpt)
    case CrashAndRebuild(kept) =>
      && Survives(st, kept) && Rebuilt(Cut(st.log, kept), st'.index)
      && st' == State(Cut(st.log, kept), kept, st'.index, {}, st.ckpt)
  }

  /** What survives reaches at least as far as the cursors of the checkpoint on disk. */
  ghost predicate Covers(st: State, kept: seq<nat>)
  {
    st.ckpt.Some? ==> |st.ckpt.value.cursors| == |kept| && AtMost(st.ckpt.value.cursors, kept)
  }

  /**
   No crash takes away what the checkpoint on disk describes -- the cursors were durable by then --
   and a full rebuild does not meet an empty shard beside a full one.  Checkpoints may be written at
   any time, with appends in flight.
   */
  ghost predicate Careful(st: State, e: Event)
  {
    match e
    case CrashAndLoad(kept) => Covers(st, kept)
    case CrashAndRebuild(kept) => Covers(st, kept) && (Lengths(st.log, kept) ==> Rebuildable(Cut(st.log, kept)))
    case _ => true
  }

  /** The checkpoint lies within the log, maps no wrong place, and its counters are beyond every record below its cursors. */
  ghost predicate CheckpointFits(log: Log, ckpt: Checkpoint)
  {
    && Lengths(log, ckpt.cursors)
    && Sound(log, ckpt.index.places) && Tight(ckpt.cursors, ckpt.index.places)
    && (forall key, p :: AtPlace(log, p, key) && p.local < ckpt.cursors[p.shard] ==> Beyond(ckpt.index.nexts, key))
  }

  ghost predicate Fresh(st: State)
  {
    && (forall key :: key in st.inflight ==> Beyond(st.index.nexts, key))
    && (forall key, p :: key in st.inflight ==> !AtPlace(st.log, p, key))
  }

  ghost predicate Inv(st: State)
  {
    && Lengths(st.log, st.durable)
    && Unique(st.log) && Sound(st.log, st.index.places) && NextsCover(st.log, st.index.nexts)
    && Fresh(st)
    && (st.ckpt.Some? ==> CheckpointFits(st.log, st.ckpt.value))
  }

  predicate Started(st: State)
  {
    && st.index == EMPTY && st.inflight == {} && st.ckpt.None? && |st.durable| == |st.log|
    && forall s :: 0 <= s < |st.log| ==> st.log[s] == [] && st.durable[s] == 0
  }

  lemma AllocateKeepsInv(st: State, stream: nat, st': State)
    requires Inv(st) && Next(st, Allocate(stream), st')
    ensures Inv(st')
  {
  }

  lemma AppendAt(log: Log, s: nat, key: Key, p: Place, k: Key)
    requires s < |log|
    ensures AtPlace(log[s := log[s] + [Rec(key)]], p, k) <==> AtPlace(log, p, k) || (p == Place(s, |log[s]|) && k == key)
  {
  }

  lemma AppendKeepsInv(st: State, key: Key, s: nat, st': State)
    requires Inv(st) && Next(st, AppendTo(key, s), st')
    ensures Inv(st')
  {
    forall k, p
      ensures AtPlace(st'.log, p, k) <==> AtPlace(st.log, p, k) || (p == Place(s, |st.log[s]|) && k == key)
    {
      AppendAt(st.log, s, key, p, k);
    }
  }

  /** Cursors never pass the end of a log the map is true of. */
  lemma CursorsWithin(log: Log, cursors: seq<nat>, places: map<Key, Place>)
    requires Sound(log, places) && Tight(cursors, places) && |cursors| == |log|
    ensures Lengths(log, cursors)
  {
    forall s | 0 <= s < |log|
      ensures cursors[s] <= |log[s]|
    {
      if cursors[s] > 0 {
        assert Attained(places, Place(s, cursors[s] - 1));
      }
    }
  }

  lemma CutFits(log: Log, kept: seq<nat>, ckpt: Checkpoint)
    requires Lengths(log, kept) && CheckpointFits(log, ckpt) && AtMost(ckpt.cursors, kept)
    ensures CheckpointFits(Cut(log, kept), ckpt)
  {
    var places := ckpt.index.places;
    forall key | key in places
      ensures AtPlace(Cut(log, kept), places[key], key)
    {
      CutAt(log, kept, places[key], key);
    }
    forall key, p | AtPlace(Cut(log, kept), p, key) && p.local < ckpt.cursors[p.shard]
      ensures Beyond(ckpt.index.nexts, key)
    {
      CutAt(log, kept, p, key);
    }
  }

  lemma LoadKeepsInv(st: State, kept: seq<nat>, st': State)
    requires Inv(st) && Next(st, CrashAndLoad(kept), st') && Covers(st, kept)
    ensures Inv(st')
    ensures PlacesOf(st'.log, st'.index.places) <==> AllMapped(st.log, st.ckpt.value.cursors, st.ckpt.value.index.places)
  {
    var ckpt := st.ckpt.value;
    CutUnique(st.log, kept);
    CutFits(st.log, kept, ckpt);
    forall key, p | AtPlace(st'.log, p, key)
      ensures Beyond(st'.index.nexts, key)
    {
      assert Visited(ckpt.cursors, |ckpt.cursors|, 0, p) || p.local < ckpt.cursors[p.shard];
    }
    CheckpointExactIff(st.log, st.log, kept, ckpt, st'.index);
  }

  lemma RebuildKeepsInv(st: State, kept: seq<nat>, st': State)
    requires Inv(st) && Next(st, CrashAndRebuild(kept), st') && Careful(st, CrashAndRebuild(kept))
    ensures Inv(st') && PlacesOf(st'.log, st'.index.places)
  {
    CutUnique(st.log, kept);
    RebuildExactIff(st'.log, st'.index);
    if st.ckpt.Some? {
      CutFits(st.log, kept, st.ckpt.value);
    }
  }

  /** Every careful step keeps the invariant; a load then finds the true index exactly when the checkpoint missed no record below its cursors. */
  lemma NextKeepsInv(st: State, e: Event, st': State)
    requires Inv(st) && Next(st, e, st') && Careful(st, e)
    ensures Inv(st')
    ensures e.CrashAndRebuild? ==> PlacesOf(st'.log, st'.index.places)
    ensures e.CrashAndLoad? ==>
              (PlacesOf(st'.log, st'.index.places) <==> AllMapped(st.log, st.ckpt.value.cursors, st.ckpt.value.index.places))
  {
    match e
    case Allocate(stream) => AllocateKeepsInv(st, stream, st');
    case AppendTo(key, s) => AppendKeepsInv(st, key, s, st');
    case GiveUp(key) =>
    case MapRecord(p) =>
      assert AtPlace(st.log, p, st.log[p.shard][p.local].key);
    case Sync(durable) =>
    case WriteCheckpoint(cursors) => CursorsWithin(st.log, cursors, st.index.places);
    case CrashAndLoad(kept) => LoadKeepsInv(st, kept, st');
    case CrashAndRebuild(kept) => RebuildKeepsInv(st, kept, st');
  }

  /** Whether a checkpoint missed a record is settled when it is written: no later step changes what lies below its cursors. */
  lemma MappedStays(st: State, e: Event, st': State, ckpt: Checkpoint)
    requires Inv(st) && Next(st, e, st') && Careful(st, e) && st.ckpt == Some(ckpt)
    ensures |ckpt.cursors| == |st.log| == |st'.log|
    ensures AllMapped(st'.log, ckpt.cursors, ckpt.index.places) <==> AllMapped(st.log, ckpt.cursors, ckpt.index.places)
  {
    match e
    case AppendTo(key, s) =>
      forall k, p
        ensures AtPlace(st'.log, p, k) <==> AtPlace(st.log, p, k) || (p == Place(s, |st.log[s]|) && k == key)
      {
        AppendAt(st.log, s, key, p, k);
      }
    case CrashAndLoad(kept) => CutMapped(st.log, kept, ckpt);
    case CrashAndRebuild(kept) => CutMapped(st.log, kept, ckpt);
    case _ =>
  }

  lemma CutMapped(log: Log, kept: seq<nat>, ckpt: Checkpoint)
    requires Lengths(log, kept) && |ckpt.cursors| == |log| && AtMost(ckpt.cursors, kept)
    ensures AllMapped(Cut(log, kept), ckpt.cursors, ckpt.index.places) <==> AllMapped(log, ckpt.cursors, ckpt.index.places)
  {
    forall key, p
      ensures AtPlace(Cut(log, kept), p, key) && p.local < ckpt.cursors[p.shard] <==> AtPlace(log, p, key) && p.local < ckpt.cursors[p.shard]
    {
      CutAt(log, kept, p, key);
    }
  }

  ghost predicate IsRun(run: seq<State>, events: seq<Event>)
  {
    |run| == |events| + 1 && Started(run[0]) && forall k :: 0 <= k < |events| ==> StepAt(run, events, k)
  }

  ghost predicate StepAt(run: seq<State>, events: seq<Event>, k: nat)
    requires |run| == |events| + 1 && k < |events|
  {
    Next(run[k], events[k], run[k + 1])
  }

  /** In every careful run no (stream, seq) is ever stored twice and every counter stays ahead of the log. */
  lemma {:induction false} CarefulRunsStayUnique(run: seq<State>, events: seq<Event>, k: nat)
    requires IsRun(run, events) && k < |run|
    requires forall i :: 0 <= i < k ==> Careful(run[i], events[i])
    ensures Inv(run[k]) && Unique(run[k].log) && NextsCover(run[k].log, run[k].index.nexts)
    ensures k > 0 && events[k - 1].CrashAndRebuild? ==> PlacesOf(run[k].log, run[k].index.places)
  {
    if k > 0 {
      CarefulRunsStayUnique(run, events, k - 1);
      assert StepAt(run, events, k - 1);
      NextKeepsInv(run[k - 1], events[k - 1], run[k]);
    }
  }

  lemma {:induction false} MappedSince(run: seq<State>, events: seq<Event>, w: nat, k: nat)
    requires IsRun(run, events) && w < k < |run| && events[w].WriteCheckpoint?
    requires forall i :: 0 <= i < k ==> Careful(run[i], events[i])
    requires forall i :: w < i < k ==> !events[i].WriteCheckpoint?
    ensures var ckpt := Checkpoint(events[w].cursors, run[w].index);
            && run[k].ckpt == Some(ckpt) && |ckpt.cursors| == |run[k].log| == |run[w].log|
            && (AllMapped(run[k].log, ckpt.cursors, ckpt.index.places) <==> AllMapped(run[w].log, ckpt.cursors, ckpt.index.places))
    decreases k
  {
    var ckpt := Checkpoint(events[w].cursors, run[w].index);
    assert StepAt(run, events, k - 1);
    CarefulRunsStayUnique(run, events, k - 1);
    if k > w + 1 {
      MappedSince(run, events, w, k - 1);
      MappedStays(run[k - 1], events[k - 1], run[k], ckpt);
    }
  }

  /**
   In every careful run, a restart that loads the checkpoint written at step `w` finds the true index
   exactly when, at step `w`, no append below the cursors was between its log write and its mapping.
   */
  lemma RestartExactIff(run: seq<State>, events: seq<Event>, w: nat, k: nat)
    requires IsRun(run, events) && w < k < |events| && events[w].WriteCheckpoint? && events[k].CrashAndLoad?
    requires forall i :: 0 <= i <= k ==> Careful(run[i], events[i])
    requires forall i :: w < i < k ==> !events[i].WriteCheckpoint?
    ensures |events[w].cursors| == |run[w].log|
    ensures PlacesOf(run[k + 1].log, run[k + 1].index.places) <==> AllMapped(run[w].log, events[w].cursors, run[w].index.places)
  {
    MappedSince(run, events, w, k);
    CarefulRunsStayUnique(run, events, k);
    assert StepAt(run, events, k);
    NextKeepsInv(run[k], events[k], run[k + 1]);
  }

  // ── A crash behind the checkpoint ──────────────────────────────────────────

  lemma {:induction false} Bound(s: set<nat>) returns (b: nat)
    ensures forall x :: x in s ==> x < b
  {
    if s == {} {
      b := 0;
    } else {
      var x :| x in s;
      b := Bound(s - {x});
      assert forall y :: y in s ==> y == x || y in s - {x};
      if b <= x {
        b := x + 1;
      }
    }
  }

  /** A record below its shard's cursor changes nothing a load looks at. */
  lemma SkippedRecord(log: Log, ckpt: Checkpoint, s: nat, key: Key, index: Index)
    requires |ckpt.cursors| == |log| && s < |log| && |log[s]| < ckpt.cursors[s] && Loaded(log, ckpt, index)
    ensures Loaded(log[s := log[s] + [Rec(key)]], ckpt, index)
  {
    var grown := log[s := log[s] + [Rec(key)]];
    var n := |ckpt.cursors|;
    forall k, p
      ensures AtPlace(grown, p, k) && Visited(ckpt.cursors, n, 0, p) <==> AtPlace(log, p, k) && Visited(ckpt.cursors, n, 0, p)
    {
      AppendAt(log, s, key, p, k);
    }
    SameVisits(log, grown, ckpt, index);
  }

  lemma SameVisits(log: Log, log': Log, ckpt: Checkpoint, index: Index)
    requires Loaded(log, ckpt, index)
    requires forall k, p :: AtPlace(log', p, k) && Visited(ckpt.cursors, |ckpt.cursors|, 0, p) <==>
                              AtPlace(log, p, k) && Visited(ckpt.cursors, |ckpt.cursors|, 0, p)
    ensures Loaded(log', ckpt, index)
  {
    forall stream | stream in index.nexts
      ensures HasReason(log', ckpt.cursors, |ckpt.cursors|, 0, ckpt.index.nexts, stream, index.nexts[stream])
    {
      assert HasReason(log, ckpt.cursors, |ckpt.cursors|, 0, ckpt.index.nexts, stream, index.nexts[stream]);
    }
  }

  function Ends(log: Log): (kept: seq<nat>)
    ensures |kept| == |log| && forall s :: 0 <= s < |log| ==> kept[s] == |log[s]|
  {
    seq(|log|, s requires 0 <= s < |log| => |log[s]|)
  }

  lemma CutNothing(log: Log)
    ensures Lengths(log, Ends(log)) && Cut(log, Ends(log)) == log
  {
    assert forall s :: 0 <= s < |log| ==> log[s][..Ends(log)[s]] == log[s];
  }

  ghost predicate IsPath(run: seq<State>, events: seq<Event>)
  {
    |run| == |events| + 1 && forall k :: 0 <= k < |events| ==> StepAt(run, events, k)
  }

  /** One seq handed out and its record appended to shard `s`. */
  lemma HandOut(st: State, key: Key, s: nat, mid: State, st': State)
    requires s < |st.log| && st.inflight == {} && key.num == NextOf(st.index.nexts, key.stream)
    requires mid == st.(index := st.index.(nexts := st.index.nexts[key.stream := key.num + 1]), inflight := {key})
    requires st' == mid.(log := st.log[s := st.log[s] + [Rec(key)]], inflight := {})
    ensures Next(st, Allocate(key.stream), mid) && Next(mid, AppendTo(key, s), st')
  {
    assert {} + {key} == {key} && {key} - {key} == {};
  }

  /**
   From any restart that left a shard shorter than the checkpoint's cursor, a run whose further crash
   loses nothing stores a (stream, seq) twice: the record put below the cursor is skipped by the next
   load, and its seq is handed out again.
   */
  lemma ReissueAfter(st: State, ckpt: Checkpoint, s: nat) returns (run: seq<State>, events: seq<Event>)
    requires st.ckpt == Some(ckpt) && |ckpt.cursors| == |st.log| && s < |st.log| && |st.log[s]| < ckpt.cursors[s]
    requires Loaded(st.log, ckpt, st.index) && st.inflight == {} && Lengths(st.log, st.durable)
    ensures IsPath(run, events) && |events| == 6 && run[0] == st && !Unique(run[6].log)
  {
    var stream := Bound(st.index.nexts.Keys);
    var key := Key(stream, 1);
    var one := st.log[s := st.log[s] + [Rec(key)]];
    var two := one[s := one[s] + [Rec(key)]];
    var more := st.index.(nexts := st.index.nexts[stream := 2]);
    var s1 := st.(index := more, inflight := {key});
    var s2 := s1.(log := one, inflight := {});
    var s3 := s2.(durable := Ends(one));
    var s4 := State(one, Ends(one), st.index, {}, st.ckpt);
    var s5 := s4.(index := more, inflight := {key});
    var s6 := s5.(log := two, inflight := {});
    HandOut(st, key, s, s1, s2);
    SkippedRecord(st.log, ckpt, s, key, st.index);
    SyncThenLoad(s2, s3, s4, st.index);
    HandOut(s4, key, s, s5, s6);
    run, events := TwoSteps(st, Allocate(stream), s1, AppendTo(key, s), s2);
    PathExtend(run, events, Sync(Ends(one)), s3);
    run, events := run + [s3], events + [Sync(Ends(one))];
    PathExtend(run, events, CrashAndLoad(Ends(one)), s4);
    run, events := run + [s4], events + [CrashAndLoad(Ends(one))];
    PathExtend(run, events, Allocate(stream), s5);
    run, events := run + [s5], events + [Allocate(stream)];
    PathExtend(run, events, AppendTo(key, s), s6);
    run, events := run + [s6], events + [AppendTo(key, s)];
    Twice(st.log, s, key);
  }

  lemma TwoSteps(a: State, first: Event, b: State, second: Event, c: State) returns (run: seq<State>, events: seq<Event>)
    requires Next(a, first, b) && Next(b, second, c)
    ensures run == [a, b, c] && events == [first, second] && IsPath(run, events)
  {
    run, events := [a, b, c], [first, second];
    assert StepAt(run, events, 0) && StepAt(run, events, 1);
  }

  /** A sync of everything and a restart that loses nothing. */
  lemma SyncThenLoad(a: State, b: State, c: State, index: Index)
    requires a.ckpt.Some? && |a.ckpt.value.cursors| == |a.log| == |a.durable| && Loaded(a.log, a.ckpt.value, index)
    requires AtMost(a.durable, Ends(a.log)) && b == a.(durable := Ends(a.log)) && c == State(a.log, Ends(a.log), index, {}, a.ckpt)
    ensures Next(a, Sync(Ends(a.log)), b) && Next(b, CrashAndLoad(Ends(a.log)), c)
  {
    CutNothing(a.log);
  }

  lemma Twice(log: Log, s: nat, key: Key)
    requires s < |log|
    ensures var one := log[s := log[s] + [Rec(key)]]; !Unique(one[s := one[s] + [Rec(key)]])
  {
    var one := log[s := log[s] + [Rec(key)]];
    var two := one[s := one[s] + [Rec(key)]];
    assert AtPlace(two, Place(s, |log[s]|), key) && AtPlace(two, Place(s, |log[s]| + 1), key);
  }

  /** A load after a crash that does not cover the checkpoint can always be continued to a seq stored twice. */
  lemma UncoveredCrashReissues(st: State, kept: seq<nat>, st': State) returns (run: seq<State>, events: seq<Event>)
    requires Inv(st) && Next(st, CrashAndLoad(kept), st') && !Covers(st, kept)
    ensures IsPath(run, events) && run[0] == st' && !Unique(run[|events|].log)
  {
    var ckpt := st.ckpt.value;
    var s :| 0 <= s < |kept| && ckpt.cursors[s] > kept[s];
    run, events := ReissueAfter(st', ckpt, s);
  }

  /** So can a rebuild after such a crash, once the checkpoint left behind is loaded. */
  lemma UncoveredRebuildReissues(st: State, kept: seq<nat>, st': State, again: State) returns (run: seq<State>, events: seq<Event>)
    requires Inv(st) && Next(st, CrashAndRebuild(kept), st') && !Covers(st, kept)
    requires Next(st', CrashAndLoad(Ends(st'.log)), again)
    ensures IsPath(run, events) && run[0] == again && !Unique(run[|events|].log)
  {
    var ckpt := st.ckpt.value;
    CutNothing(st'.log);
    var s :| 0 <= s < |kept| && ckpt.cursors[s] > kept[s];
    run, events := ReissueAfter(again, ckpt, s);
  }

  lemma PathExtend(run: seq<State>, events: seq<Event>, e: Event, st: State)
    requires IsPath(run, events) && Next(run[|events|], e, st)
    ensures IsPath(run + [st], events + [e])
  {
    var run', events' := run + [st], events + [e];
    forall k | 0 <= k < |events'|
      ensures StepAt(run', events', k)
    {
      assert k < |events| ==> StepAt(run, events, k);
    }
  }

  lemma RunExtend(run: seq<State>, events: seq<Event>, e: Event, st: State)
    requires IsRun(run, events) && Next(run[|events|], e, st)
    ensures IsRun(run + [st], events + [e])
  {
    PathExtend(run, events, e, st);
  }

  /** Seqs 1 to `n` of a stream the index knows nothing of, handed out one after another. */
  lemma {:induction false} HandOutUpTo(st: State, stream: nat, n: nat) returns (run: seq<State>, events: seq<Event>)
    requires stream !in st.index.nexts
    ensures IsPath(run, events) && run[0] == st && run[|events|].log == st.log
    ensures NextOf(run[|events|].index.nexts, stream) == n + 1 && (n > 0 ==> Key(stream, n) in run[|events|].inflight)
  {
    if n == 0 {
      run, events := [st], [];
    } else {
      run, events := HandOutUpTo(st, stream, n - 1);
      var last := run[|events|];
      var next := last.(index := last.index.(nexts := last.index.nexts[stream := n + 1]), inflight := last.inflight + {Key(stream, n)});
      PathExtend(run, events, Allocate(stream), next);
      run, events := run + [next], events + [Allocate(stream)];
    }
  }

  /** A rebuild that meets an empty shard beside a stored record can always be continued to that record's seq stored twice. */
  lemma EmptyShardReissues(st: State, kept: seq<nat>, st': State, key: Key, p: Place) returns (run: seq<State>, events: seq<Event>)
    requires Next(st, CrashAndRebuild(kept), st') && SomeShardEmpty(st'.log) && AtPlace(st'.log, p, key) && key.num > 0
    ensures IsPath(run, events) && run[0] == st' && !Unique(run[|events|].log)
  {
    run, events := HandOutUpTo(st', key.stream, key.num);
    var last := run[|events|];
    var s := p.shard;
    var end := last.(log := last.log[s := last.log[s] + [Rec(key)]], inflight := last.inflight - {key});
    PathExtend(run, events, AppendTo(key, s), end);
    run, events := run + [end], events + [AppendTo(key, s)];
    assert AtPlace(end.log, p, key) && AtPlace(end.log, Place(s, |st'.log[s]|), key);
  }

  const K1 := Key(7, 1)
  const STALE := Checkpoint([1], Index(map[K1 := Place(0, 0)], map[7 := 2]))

  lemma Appended(log: Log, s: nat, key: Key, log': Log)
    requires s < |log| == |log'| && log'[s] == log[s] + [Rec(key)]
    requires forall t :: 0 <= t < |log| && t != s ==> log'[t] == log[t]
    ensures log' == log[s := log[s] + [Rec(key)]]
  {
  }

  /** The checkpoint maps a record that the crash then takes away. */
  lemma HastyCheckpoint() returns (run: seq<State>, events: seq<Event>)
    ensures IsRun(run, events) && |events| == 5
    ensures run[5] == State([[]], [0], STALE.index, {}, Some(STALE))
  {
    var s0 := State([[]], [0], EMPTY, {}, None);
    var s1 := s0.(index := Index(map[], map[7 := 2]), inflight := {K1});
    var s2 := s1.(log := [[Rec(K1)]], inflight := {});
    var s3 := s2.(index := STALE.index);
    var s4 := s3.(ckpt := Some(STALE));
    var s5 := State([[]], [0], STALE.index, {}, Some(STALE));
    Appended(s0.log, 0, K1, s2.log);
    HandOut(s0, K1, 0, s1, s2);
    run, events := [s0], [];
    RunExtend(run, events, Allocate(7), s1);
    run, events := run + [s1], events + [Allocate(7)];
    RunExtend(run, events, AppendTo(K1, 0), s2);
    run, events := run + [s2], events + [AppendTo(K1, 0)];
    RunExtend(run, events, MapRecord(Place(0, 0)), s3);
    run, events := run + [s3], events + [MapRecord(Place(0, 0))];
    StaleWritten(s3, s4, s5);
    RunExtend(run, events, WriteCheckpoint([1]), s4);
    run, events := run + [s4], events + [WriteCheckpoint([1])];
    RunExtend(run, events, CrashAndLoad([0]), s5);
    run, events := run + [s5], events + [CrashAndLoad([0])];
  }

  lemma StaleWritten(a: State, b: State, c: State)
    requires a.log == [[Rec(K1)]] && a.durable == [0] && a.index == STALE.index && b == a.(ckpt := Some(STALE))
    requires c == State([[]], [0], STALE.index, {}, Some(STALE))
    ensures Next(a, WriteCheckpoint([1]), b) && Next(b, CrashAndLoad([0]), c)
  {
    assert Attained(STALE.index.places, Place(0, 0)) by {
      assert STALE.index.places[K1] == Place(0, 0);
    }
    assert Cut(b.log, [0]) == [[]];
    NothingToScan([[]], STALE);
  }

  /** With every cursor at or beyond the end, loading changes nothing. */
  lemma NothingToScan(log: Log, ckpt: Checkpoint)
    requires |ckpt.cursors| == |log| && forall s :: 0 <= s < |log| ==> |log[s]| <= ckpt.cursors[s]
    ensures Loaded(log, ckpt, ckpt.index)
  {
  }

  lemma JoinRuns(run: seq<State>, events: seq<Event>, more: seq<State>, after: seq<Event>)
    requires IsRun(run, events) && IsPath(more, after) && more[0] == run[|events|]
    ensures IsRun(run + more[1..], events + after) && (run + more[1..])[|events + after|] == more[|after|]
  {
    var run', events' := run + more[1..], events + after;
    forall k | 0 <= k < |events'|
      ensures StepAt(run', events', k)
    {
      if k < |events| {
        assert StepAt(run, events, k);
      } else {
        assert StepAt(more, after, k - |events|);
      }
    }
  }

  /** A whole run from the start that stores a (stream, seq) twice. */
  lemma StoredTwice() returns (run: seq<State>, events: seq<Event>)
    ensures IsRun(run, events) && !Unique(run[|events|].log)
  {
    run, events := HastyCheckpoint();
    NothingToScan([[]], STALE);
    var more, after := ReissueAfter(run[5], STALE, 0);
    JoinRuns(run, events, more, after);
    run, events := run + more[1..], events + after;
  }

  /** One durable record in the first of two shards. */
  lemma FirstShardOnly() returns (run: seq<State>, events: seq<Event>)
    ensures IsRun(run, events) && |events| == 3
    ensures run[3] == State([[Rec(K1)], []], [1, 0], Index(map[], map[7 := 2]), {}, None)
  {
    var s0 := State([[], []], [0, 0], EMPTY, {}, None);
    var s1 := s0.(index := Index(map[], map[7 := 2]), inflight := {K1});
    var s2 := s1.(log := [[Rec(K1)], []], inflight := {});
    var s3 := s2.(durable := [1, 0]);
    Appended(s0.log, 0, K1, s2.log);
    HandOut(s0, K1, 0, s1, s2);
    run, events := [s0], [];
    RunExtend(run, events, Allocate(7), s1);
    run, events := run + [s1], events + [Allocate(7)];
    RunExtend(run, events, AppendTo(K1, 0), s2);
    run, events := run + [s2], events + [AppendTo(K1, 0)];
    RunExtend(run, events, Sync([1, 0]), s3);
    run, events := run + [s3], events + [Sync([1, 0])];
  }

  /** A full rebuild with one shard still empty forgets the other's record, and hands its seq out again. */
  lemma EmptyShardForgets() returns (run: seq<State>, events: seq<Event>)
    ensures IsRun(run, events) && |events| == 6 && events[3] == CrashAndRebuild([1, 0])
    ensures !PlacesOf(run[4].log, run[4].index.places) && !Unique(run[6].log)
  {
    run, events := FirstShardOnly();
    var s4 := State([[Rec(K1)], []], [1, 0], EMPTY, {}, None);
    var s5 := s4.(index := Index(map[], map[7 := 2]), inflight := {K1});
    var s6 := s5.(log := [[Rec(K1), Rec(K1)], []], inflight := {});
    RebuildForgets(run[3], s4);
    RunExtend(run, events, CrashAndRebuild([1, 0]), s4);
    run, events := run + [s4], events + [CrashAndRebuild([1, 0])];
    Appended(s4.log, 0, K1, s6.log);
    HandOut(s4, K1, 0, s5, s6);
    RunExtend(run, events, Allocate(7), s5);
    run, events := run + [s5], events + [Allocate(7)];
    RunExtend(run, events, AppendTo(K1, 0), s6);
    run, events := run + [s6], events + [AppendTo(K1, 0)];
    TwiceInFirst();
  }

  lemma TwiceInFirst()
    ensures !Unique([[Rec(K1), Rec(K1)], []])
  {
    var log := [[Rec(K1), Rec(K1)], []];
    assert AtPlace(log, Place(0, 0), K1) && AtPlace(log, Place(0, 1), K1);
  }

  lemma RebuildForgets(a: State, b: State)
    requires a.log == [[Rec(K1)], []] && a.durable == [1, 0] && a.ckpt == None && b == State(a.log, [1, 0], EMPTY, {}, None)
    ensures Next(a, CrashAndRebuild([1, 0]), b) && !PlacesOf(b.log, b.index.places)
  {
    assert [1, 0] == Ends(a.log);
    CutNothing(a.log);
    assert a.log[1] == [];
    assert AtPlace(a.log, Place(0, 0), K1);
  }
}
