/**
 The catalog: names of namespaces and streams, and the ids records carry.

 Ids are handed out by two counters.  Every creation is followed by an attempt to write a snapshot
 of the names; on start the tables and the counters are rebuilt from the snapshot.
 */
module Catalog {
  import opened Bytes
  import opened Wrappers

  /** A name as the bytes of its text. */
  type Name = seq<Byte>

  datatype StreamKey = StreamKey(ns: nat, name: Name)

  datatype Tables = Tables(
    namespaces: map<Name, nat>, namespaceNames: map<nat, Name>,
    streams: map<StreamKey, nat>, streamInfo: map<nat, StreamKey>,
    nextNs: nat, nextStream: nat)

  const EMPTY := Tables(map[], map[], map[], map[], 1, 1)

  // ── Name rules ─────────────────────────────────────────────────────────────

  const SLASH: Byte := 0x2F
  const UNDERSCORE: Byte := 0x5F
  const DASH: Byte := 0x2D

  predicate PlainByte(b: Byte)
  {
    0x61 <= b <= 0x7A || 0x30 <= b <= 0x39 || b == UNDERSCORE || b == DASH
  }

  predicate NamespaceNameOk(name: Name)
  {
    && 1 <= |name| <= 64 && name[0] != UNDERSCORE
    && forall i :: 0 <= i < |name| ==> PlainByte(name[i])
  }

  predicate DoubleSlashAt(name: Name, i: nat)
  {
    i + 1 < |name| && name[i] == name[i + 1] == SLASH
  }

  predicate StreamNameOk(name: Name)
  {
    && 1 <= |name| <= 128 && name[0] != UNDERSCORE && name[0] != SLASH && name[|name| - 1] != SLASH
    && (forall i :: 0 <= i < |name| ==> !DoubleSlashAt(name, i))
    && forall i :: 0 <= i < |name| ==> PlainByte(name[i]) || name[i] == SLASH
  }

  // ── Consistent tables ──────────────────────────────────────────────────────

  ghost predicate Inverse<A, B>(forward: map<A, B>, backward: map<B, A>)
  {
    && (forall a :: a in forward ==> forward[a] in backward && backward[forward[a]] == a)
    && (forall b :: b in backward ==> backward[b] in forward && forward[backward[b]] == b)
  }

  /** The ids given out are exactly those from 1 to below the counter. */
  ghost predicate Counter<A>(ids: map<nat, A>, next: nat)
  {
    next >= 1 && forall id :: id in ids <==> 1 <= id < next
  }

  ghost predicate Consistent(t: Tables)
  {
    && Inverse(t.namespaces, t.namespaceNames) && Inverse(t.streams, t.streamInfo)
    && Counter(t.namespaceNames, t.nextNs) && Counter(t.streamInfo, t.nextStream)
    && (forall key :: key in t.streams ==> key.ns in t.namespaceNames)
  }

  ghost predicate Extends<A, B>(m: map<A, B>, m': map<A, B>)
  {
    forall a :: a in m ==> a in m' && m'[a] == m[a]
  }

  /** Nothing known is forgotten or changed. */
  ghost predicate Grows(t: Tables, t': Tables)
  {
    && Extends(t.namespaces, t'.namespaces) && Extends(t.streams, t'.streams)
    && t.nextNs <= t'.nextNs && t.nextStream <= t'.nextStream
  }

  /** The ids of a pair of names. */
  datatype Ids = Ids(ns: nat, stream: nat)

  predicate Knows(t: Tables, ns: Name, stream: Name, ids: Ids)
  {
    && ns in t.namespaces && t.namespaces[ns] == ids.ns
    && StreamKey(ids.ns, stream) in t.streams && t.streams[StreamKey(ids.ns, stream)] == ids.stream
  }

  /** Distinct names never share a stream id. */
  lemma DistinctIds(t: Tables, ns1: Name, s1: Name, ids1: Ids, ns2: Name, s2: Name, ids2: Ids)
    requires Consistent(t) && Knows(t, ns1, s1, ids1) && Knows(t, ns2, s2, ids2) && ids1.stream == ids2.stream
    ensures ns1 == ns2 && s1 == s2 && ids1 == ids2
  {
    assert t.streamInfo[ids1.stream] == StreamKey(ids1.ns, s1);
    assert t.streamInfo[ids2.stream] == StreamKey(ids2.ns, s2);
    assert t.namespaceNames[ids1.ns] == ns1;
  }

  lemma InverseAdd<A, B>(forward: map<A, B>, backward: map<B, A>, a: A, b: B)
    requires Inverse(forward, backward) && a !in forward && b !in backward
    ensures Inverse(forward[a := b], backward[b := a])
  {
  }

  lemma CounterAdd<A>(ids: map<nat, A>, next: nat, a: A)
    requires Counter(ids, next)
    ensures next !in ids && Counter(ids[next := a], next + 1)
  {
  }

  // ── Resolving ──────────────────────────────────────────────────────────────

  class Resolver {
    var t: Tables

    ghost predicate Valid()
      reads this
    {
      Consistent(t)
    }

    method NamespaceId(ns: Name) returns (id: nat, created: bool)
      requires Valid()
      modifies this
      ensures Valid() && Grows(old(t), t) && t.streams == old(t).streams && t.streamInfo == old(t).streamInfo && t.nextStream == old(t).nextStream
      ensures ns in t.namespaces && t.namespaces[ns] == id && id in t.namespaceNames
      ensures created <==> ns !in old(t).namespaces
      ensures !created ==> t == old(t)
      ensures created ==> id == old(t).nextNs && id !in old(t).namespaceNames && t.namespaces == old(t).namespaces[ns := id]
    {
      if ns in t.namespaces {
        return t.namespaces[ns], false;
      }
      id := t.nextNs;
      CounterAdd(t.namespaceNames, id, ns);
      InverseAdd(t.namespaces, t.namespaceNames, ns, id);
      t := t.(namespaces := t.namespaces[ns := id], namespaceNames := t.namespaceNames[id := ns], nextNs := id + 1);
      created := true;
    }

    method StreamId(key: StreamKey) returns (id: nat, created: bool)
      requires Valid() && key.ns in t.namespaceNames
      modifies this
      ensures Valid() && Grows(old(t), t) && t.namespaces == old(t).namespaces
      ensures key in t.streams && t.streams[key] == id
      ensures created <==> key !in old(t).streams
      ensures !created ==> t == old(t)
      ensures created ==> id == old(t).nextStream && id !in old(t).streamInfo && t.streams == old(t).streams[key := id]
    {
      if key in t.streams {
        return t.streams[key], false;
      }
      id := t.nextStream;
      CounterAdd(t.streamInfo, id, key);
      InverseAdd(t.streams, t.streamInfo, key, id);
      t := t.(streams := t.streams[key := id], streamInfo := t.streamInfo[id := key], nextStream := id + 1);
      created := true;
    }

    /** Gives both ids, creating what is missing; `created` asks for a snapshot. */
    method Resolve(ns: Name, stream: Name) returns (ids: Option<Ids>, created: bool)
      requires Valid()
      modifies this
      ensures Valid() && ResolveStep(old(t), ns, stream, ids, t)
      ensures created <==> t != old(t)
    {
      if !NamespaceNameOk(ns) || !StreamNameOk(stream) {
        return None, false;
      }
      var nsId, newNs := NamespaceId(ns);
      var id, newStream := StreamId(StreamKey(nsId, stream));
      return Some(Ids(nsId, id)), newNs || newStream;
    }
  }

  /** Known names keep their ids, a name not known before gets the next id, and nothing but the asked names is added. */
  ghost predicate ResolveStep(t: Tables, ns: Name, stream: Name, ids: Option<Ids>, t': Tables)
  {
    && Consistent(t') && Grows(t, t')
    && (ids.Some? <==> NamespaceNameOk(ns) && StreamNameOk(stream))
    && (ids.None? ==> t' == t)
    && (ids.Some? ==>
          && Knows(t', ns, stream, ids.value)
          && t'.namespaces.Keys == t.namespaces.Keys + {ns}
          && t'.streams.Keys == t.streams.Keys + {StreamKey(ids.value.ns, stream)})
  }

  // ── Snapshots and restarts ─────────────────────────────────────────────────

  /** The name maps, which are all a snapshot stores, determine the tables. */
  lemma SameNamesSameTables(t: Tables, u: Tables)
    requires Consistent(t) && Consistent(u) && t.namespaces == u.namespaces && t.streams == u.streams
    ensures t == u
  {
    assert t.namespaceNames == u.namespaceNames && t.streamInfo == u.streamInfo;
    SameCounter(t.namespaceNames, t.nextNs, u.nextNs);
    SameCounter(t.streamInfo, t.nextStream, u.nextStream);
  }

  lemma SameCounter<A>(ids: map<nat, A>, x: nat, y: nat)
    requires Counter(ids, x) && Counter(ids, y)
    ensures x == y
  {
    assert (x in ids <==> 1 <= x < y) && (y in ids <==> 1 <= y < x);
  }

  datatype Pair = Pair(ns: Name, stream: Name)

  /** `Mixed`: two saves wrote the same temporary file, and the result is refused when it is opened. */
  datatype Disk = Missing | Snapshot(tables: Tables) | Mixed

  /** `disk`: the snapshot file; `answers`: the ids given to callers. */
  datatype State = State(t: Tables, disk: Disk, answers: map<Pair, Ids>)

  /** `LateSave`: a snapshot serialised earlier replaces the file; `Collide`: two of them at once do. */
  datatype Event = Resolve(names: Pair, ids: Option<Ids>, saved: bool) | LateSave(snapshot: Tables) | Collide(one: Tables, other: Tables) | Reopen

  function OnDisk(st: State): (t: Tables)
  {
    if st.disk.Snapshot? then st.disk.tables else EMPTY
  }

  ghost predicate Next(st: State, e: Event, st': State)
  {
    match e
    case Resolve(names, ids, saved) =>
      && ResolveStep(st.t, names.ns, names.stream, ids, st'.t)
      && st' == State(st'.t,
                      if st'.t != st.t && saved then Snapshot(st'.t) else st.disk,
                      if ids.Some? then st.answers[names := ids.value] else st.answers)
    case LateSave(snapshot) => Consistent(snapshot) && Grows(snapshot, st.t) && st' == st.(disk := Snapshot(snapshot))
    case Collide(one, other) => one != other && Grows(one, other) && Grows(other, st.t) && st' == st.(disk := Mixed)
    case Reopen => !st.disk.Mixed? && st' == st.(t := OnDisk(st))
  }

  ghost predicate AllKnown(t: Tables, answers: map<Pair, Ids>)
  {
    forall names :: names in answers ==> Knows(t, names.ns, names.stream, answers[names])
  }

  ghost predicate Asked(answers: map<Pair, Ids>, key: StreamKey)
  {
    exists names :: names in answers && StreamKey(answers[names].ns, names.stream) == key
  }

  ghost predicate AskedIn(answers: map<Pair, Ids>, ns: Name)
  {
    exists names :: names in answers && names.ns == ns
  }

  /** The tables hold what was asked for and nothing else. */
  ghost predicate OnlyAsked(t: Tables, answers: map<Pair, Ids>)
  {
    && (forall ns :: ns in t.namespaces ==> AskedIn(answers, ns))
    && (forall key :: key in t.streams ==> Asked(answers, key))
  }

  ghost predicate Inv(st: State)
  {
    && Consistent(st.t) && Consistent(OnDisk(st)) && Grows(OnDisk(st), st.t)
    && AllKnown(st.t, st.answers) && OnlyAsked(st.t, st.answers)
  }

  lemma KnowsStays(t: Tables, t': Tables, ns: Name, stream: Name, ids: Ids)
    requires Knows(t, ns, stream, ids) && Grows(t, t')
    ensures Knows(t', ns, stream, ids)
  {
  }

  /** A resolve answers a name it answered before as before. */
  lemma AnswersGrow(t: Tables, answers: map<Pair, Ids>, names: Pair, ids: Ids, t': Tables)
    requires AllKnown(t, answers) && Grows(t, t') && Knows(t', names.ns, names.stream, ids)
    ensures names in answers ==> answers[names] == ids
    ensures AllKnown(t', answers[names := ids])
  {
    forall n | n in answers
      ensures Knows(t', n.ns, n.stream, answers[n])
    {
      KnowsStays(t, t', n.ns, n.stream, answers[n]);
    }
  }

  lemma GrowsOn(disk: Tables, t: Tables, t': Tables)
    requires Grows(disk, t) && Grows(t, t')
    ensures Grows(disk, t')
  {
  }

  lemma ResolveKeepsInv(st: State, names: Pair, ids: Option<Ids>, saved: bool, st': State)
    requires Inv(st) && Next(st, Resolve(names, ids, saved), st')
    ensures Inv(st')
    ensures forall n :: n in st.answers ==> n in st'.answers && st'.answers[n] == st.answers[n]
  {
    GrowsOn(OnDisk(st), st.t, st'.t);
    match ids
    case None =>
      assert st' == st;
    case Some(given) =>
      AnswersGrow(st.t, st.answers, names, given, st'.t);
      AskedGrows(st.t, st.answers, names, given, st'.t);
  }

  lemma AskedGrows(t: Tables, answers: map<Pair, Ids>, names: Pair, ids: Ids, t': Tables)
    requires OnlyAsked(t, answers) && (names in answers ==> answers[names] == ids)
    requires t'.namespaces.Keys == t.namespaces.Keys + {names.ns} && t'.streams.Keys == t.streams.Keys + {StreamKey(ids.ns, names.stream)}
    ensures OnlyAsked(t', answers[names := ids])
  {
    var answers' := answers[names := ids];
    assert names in answers';
    forall ns | ns in t'.namespaces
      ensures AskedIn(answers', ns)
    {
      if ns != names.ns {
        assert AskedIn(answers, ns);
      }
    }
    forall key | key in t'.streams
      ensures Asked(answers', key)
    {
      if key in t.streams {
        assert Asked(answers, key);
      }
    }
  }

  /**
   A restart keeps every given id exactly when the snapshot in the file is that of the current tables:
   the save of the last creation reached it and no older one replaced it.
   */
  lemma ReopenKeepsIff(st: State)
    requires Inv(st)
    ensures AllKnown(OnDisk(st), st.answers) <==> OnDisk(st) == st.t
  {
    var disk := OnDisk(st);
    if AllKnown(disk, st.answers) {
      forall ns | ns in st.t.namespaces
        ensures ns in disk.namespaces
      {
        assert AskedIn(st.answers, ns);
      }
      forall key | key in st.t.streams
        ensures key in disk.streams
      {
        assert Asked(st.answers, key);
      }
      assert disk.namespaces == st.t.namespaces && disk.streams == st.t.streams;
      SameNamesSameTables(disk, st.t);
    }
  }

  ghost predicate StepAt(run: seq<State>, events: seq<Event>, k: nat)
    requires k < |events| && |run| == |events| + 1
  {
    Next(run[k], events[k], run[k + 1])
  }

  ghost predicate IsRun(run: seq<State>, events: seq<Event>)
  {
    && |run| == |events| + 1 && run[0] == State(EMPTY, Missing, map[])
    && forall k :: 0 <= k < |events| ==> StepAt(run, events, k)
  }

  /** Every restart so far found the snapshot of the tables as they were; saves may fail in between. */
  ghost predicate Restored(run: seq<State>, events: seq<Event>, k: nat)
    requires |run| == |events| + 1 && k < |run|
  {
    forall i :: 0 <= i < k && events[i].Reopen? ==> OnDisk(run[i]) == run[i].t
  }

  ghost predicate KeptAll(run: seq<State>, k: nat)
    requires k < |run|
  {
    forall i :: 0 <= i <= k ==> AllKnown(run[i].t, run[i].answers)
  }

  lemma {:induction false} RestoredKeepsInv(run: seq<State>, events: seq<Event>, k: nat)
    requires IsRun(run, events) && k < |run| && Restored(run, events, k)
    ensures Inv(run[k])
  {
    if k > 0 {
      RestoredKeepsInv(run, events, k - 1);
      assert StepAt(run, events, k - 1);
      var e := events[k - 1];
      if e.Resolve? {
        ResolveKeepsInv(run[k - 1], e.names, e.ids, e.saved, run[k]);
      }
    }
  }

  /**
   Over any run of resolves, failed and late saves and restarts, every id ever given stays known all
   the way exactly when every restart found the snapshot of the tables as they were.
   */
  lemma {:induction false} AnswersKeptIff(run: seq<State>, events: seq<Event>, k: nat)
    requires IsRun(run, events) && k < |run|
    ensures KeptAll(run, k) <==> Restored(run, events, k)
  {
    if k > 0 {
      AnswersKeptIff(run, events, k - 1);
      assert StepAt(run, events, k - 1);
      assert KeptAll(run, k) <==> KeptAll(run, k - 1) && AllKnown(run[k].t, run[k].answers);
      if Restored(run, events, k - 1) {
        RestoredKeepsInv(run, events, k - 1);
        if events[k - 1].Reopen? {
          ReopenKeepsIff(run[k - 1]);
        } else {
          RestoredKeepsInv(run, events, k);
        }
      }
    }
  }

  /** In such a run a name keeps the ids it was first given. */
  lemma {:induction false} NamesKeepTheirIds(run: seq<State>, events: seq<Event>, i: nat, k: nat, names: Pair)
    requires IsRun(run, events) && i <= k < |run| && Restored(run, events, k)
    ensures names in run[i].answers ==> names in run[k].answers && run[k].answers[names] == run[i].answers[names]
    decreases k
  {
    if i < k {
      NamesKeepTheirIds(run, events, i, k - 1, names);
      RestoredKeepsInv(run, events, k - 1);
      assert StepAt(run, events, k - 1);
      var e := events[k - 1];
      if e.Resolve? {
        ResolveKeepsInv(run[k - 1], e.names, e.ids, e.saved, run[k]);
      }
    }
  }

  /** The step puts a whole snapshot into the file. */
  ghost predicate SavesWhole(run: seq<State>, events: seq<Event>, k: nat)
    requires |run| == |events| + 1 && k < |events|
  {
    events[k].LateSave? || (events[k].Resolve? && events[k].saved && run[k + 1].t != run[k].t)
  }

  ghost predicate MixedSince(run: seq<State>, events: seq<Event>, k: nat)
    requires |run| == |events| + 1 && k <= |events|
  {
    exists i :: 0 <= i < k && events[i].Collide? && forall j :: i < j < k ==> !SavesWhole(run, events, j)
  }

  /** Over any run, the service refuses to start if and only if two saves have collided and no whole snapshot was saved since. */
  lemma {:induction false} RefusedIff(run: seq<State>, events: seq<Event>, k: nat)
    requires IsRun(run, events) && k < |run|
    ensures run[k].disk.Mixed? <==> MixedSince(run, events, k)
  {
    if k > 0 {
      RefusedIff(run, events, k - 1);
      assert StepAt(run, events, k - 1);
      MixedStep(run, events, k);
    }
  }

  lemma MixedStep(run: seq<State>, events: seq<Event>, k: nat)
    requires |run| == |events| + 1 && 0 < k <= |events|
    ensures MixedSince(run, events, k) <==> events[k - 1].Collide? || (MixedSince(run, events, k - 1) && !SavesWhole(run, events, k - 1))
  {
    if events[k - 1].Collide? {
      assert MixedSince(run, events, k);
    } else if MixedSince(run, events, k) {
      var i :| 0 <= i < k && events[i].Collide? && forall j :: i < j < k ==> !SavesWhole(run, events, j);
      assert i < k - 1;
    }
  }

  // ── What a lost snapshot costs ─────────────────────────────────────────────

  /** A snapshot with the same stream counter has the same streams. */
  lemma SameCounterSameStreams(disk: Tables, t: Tables)
    requires Consistent(disk) && Consistent(t) && Grows(disk, t)
    ensures disk.nextStream == t.nextStream <==> disk.streams == t.streams
  {
    if disk.nextStream == t.nextStream {
      forall key | key in t.streams
        ensures key in disk.streams
      {
        assert t.streams[key] in disk.streamInfo;
        var other := disk.streamInfo[t.streams[key]];
        assert t.streamInfo[t.streams[other]] == other;
      }
      assert disk.streams == t.streams;
    } else {
      var id := disk.nextStream;
      assert id in t.streamInfo && id !in disk.streamInfo;
      assert t.streamInfo[id] in t.streams;
    }
  }

  /** Who was given a stream id. */
  function Holder(t: Tables, id: nat): (names: Pair)
    requires id in t.streamInfo && t.streamInfo[id].ns in t.namespaceNames
  {
    Pair(t.namespaceNames[t.streamInfo[id].ns], t.streamInfo[id].name)
  }

  /** The id was given to somebody else. */
  ghost predicate Taken(answers: map<Pair, Ids>, names: Pair, id: nat)
  {
    exists other :: other in answers && other != names && answers[other].stream == id
  }

  lemma NewStreamId(t: Tables, names: Pair, ids: Ids, t': Tables)
    requires Consistent(t) && ResolveStep(t, names.ns, names.stream, Some(ids), t') && !Knows(t, names.ns, names.stream, ids)
    ensures ids.stream == t.nextStream
  {
    var key := StreamKey(ids.ns, names.stream);
    if key !in t.streams {
      forall id | id in t'.streamInfo && id != ids.stream
        ensures id in t.streamInfo
      {
        assert t'.streamInfo[id] in t.streams;
      }
      assert t.nextStream in t'.streamInfo <==> t.nextStream < t'.nextStream;
      assert t'.nextStream > t.nextStream by {
        assert ids.stream !in t.streamInfo;
      }
    }
  }

  /**
   The first stream created after a restart is given an id that somebody else already has exactly when
   the snapshot lost a stream and the created one is not the very stream that had the next id.
   */
  lemma ReissuedIff(st: State, st': State, names: Pair, ids: Ids, t': Tables)
    requires Inv(st) && Next(st, Reopen, st')
    requires ResolveStep(st'.t, names.ns, names.stream, Some(ids), t') && !Knows(st'.t, names.ns, names.stream, ids)
    ensures Taken(st.answers, names, ids.stream) <==>
            && OnDisk(st).streams != st.t.streams
            && OnDisk(st).nextStream in st.t.streamInfo && st.t.streamInfo[OnDisk(st).nextStream].ns in st.t.namespaceNames
            && Holder(st.t, OnDisk(st).nextStream) != names
  {
    var disk, id := OnDisk(st), OnDisk(st).nextStream;
    NewStreamId(disk, names, ids, t');
    SameCounterSameStreams(disk, st.t);
    if disk.streams != st.t.streams {
      assert id in st.t.streamInfo;
      var key := st.t.streamInfo[id];
      assert key in st.t.streams && Asked(st.answers, key);
      var holder :| holder in st.answers && StreamKey(st.answers[holder].ns, holder.stream) == key;
      assert holder == Holder(st.t, id) && st.answers[holder].stream == id;
      forall other | other in st.answers && st.answers[other].stream == id
        ensures other == holder
      {
        DistinctIds(st.t, other.ns, other.stream, st.answers[other], holder.ns, holder.stream, st.answers[holder]);
      }
    } else {
      assert id !in st.t.streamInfo;
      forall other | other in st.answers
        ensures st.answers[other].stream != id
      {
        assert Knows(st.t, other.ns, other.stream, st.answers[other]);
      }
    }
  }

  lemma FirstResolve(ns: Name, stream: Name, t: Tables)
    requires NamespaceNameOk(ns) && StreamNameOk(stream)
    requires t == Tables(map[ns := 1], map[1 := ns], map[StreamKey(1, stream) := 1], map[1 := StreamKey(1, stream)], 2, 2)
    ensures ResolveStep(EMPTY, ns, stream, Some(Ids(1, 1)), t)
  {
  }

  lemma SecondResolve(ns: Name, stream: Name, other: Name, t: Tables, u: Tables)
    requires NamespaceNameOk(ns) && StreamNameOk(stream) && StreamNameOk(other) && other != stream
    requires t == Tables(map[ns := 1], map[1 := ns], map[StreamKey(1, stream) := 1], map[1 := StreamKey(1, stream)], 2, 2)
    requires u == t.(streams := t.streams[StreamKey(1, other) := 2], streamInfo := t.streamInfo[2 := StreamKey(1, other)], nextStream := 3)
    ensures ResolveStep(t, ns, other, Some(Ids(1, 2)), u)
  {
  }

  /** Two streams are created at once, and their saves write the same temporary file. */
  lemma CollidingSaves() returns (run: seq<State>, events: seq<Event>)
    ensures IsRun(run, events) && |events| == 3 && run[3].disk.Mixed?
  {
    var x, y: Name := [0x78], [0x79];
    var t := Tables(map[x := 1], map[1 := x], map[StreamKey(1, x) := 1], map[1 := StreamKey(1, x)], 2, 2);
    var u := t.(streams := t.streams[StreamKey(1, y) := 2], streamInfo := t.streamInfo[2 := StreamKey(1, y)], nextStream := 3);
    var a, b, first, second := Pair(x, x), Pair(x, y), Ids(1, 1), Ids(1, 2);
    var s0 := State(EMPTY, Missing, map[]);
    var s1 := State(t, Missing, map[a := first]);
    var s2 := State(u, Missing, map[a := first][b := second]);
    var s3 := s2.(disk := Mixed);
    FirstResolve(x, x, t);
    SecondResolve(x, x, y, t, u);
    run, events := ThreeSteps(s0, Resolve(a, Some(first), false), s1, Resolve(b, Some(second), false), s2, Collide(t, u), s3);
  }

  lemma ThreeSteps(s0: State, e0: Event, s1: State, e1: Event, s2: State, e2: Event, s3: State) returns (run: seq<State>, events: seq<Event>)
    requires s0 == State(EMPTY, Missing, map[]) && Next(s0, e0, s1) && Next(s1, e1, s2) && Next(s2, e2, s3)
    ensures IsRun(run, events) && run == [s0, s1, s2, s3] && events == [e0, e1, e2]
  {
    run, events := [s0, s1, s2, s3], [e0, e1, e2];
    assert StepAt(run, events, 0) && StepAt(run, events, 1) && StepAt(run, events, 2);
  }

  /** One failed save: two different streams are given the same ids. */
  lemma UnsavedIdsReused() returns (run: seq<State>, events: seq<Event>)
    ensures IsRun(run, events) && |events| == 3 && !Restored(run, events, 3)
    ensures exists a, b :: a in run[3].answers && b in run[3].answers && a != b && run[3].answers[a] == run[3].answers[b]
  {
    var x, y: Name := [0x78], [0x79];
    var a, b := Pair(x, x), Pair(x, y);
    var ids := Ids(1, 1);
    var t := Tables(map[x := 1], map[1 := x], map[StreamKey(1, x) := 1], map[1 := StreamKey(1, x)], 2, 2);
    var u := Tables(map[x := 1], map[1 := x], map[StreamKey(1, y) := 1], map[1 := StreamKey(1, y)], 2, 2);
    var s0 := State(EMPTY, Missing, map[]);
    var s1 := State(t, Missing, map[a := ids]);
    var s2 := State(EMPTY, Missing, map[a := ids]);
    var s3 := State(u, Snapshot(u), map[a := ids, b := ids]);
    FirstResolve(x, x, t);
    FirstResolve(x, y, u);
    run, events := ThreeSteps(s0, Resolve(a, Some(ids), false), s1, Reopen, s2, Resolve(b, Some(ids), true), s3);
    assert x[0] != y[0];
    assert run[3] == s3;
    assert a in run[3].answers && b in run[3].answers && a != b && run[3].answers[a] == run[3].answers[b];
    assert events[1].Reopen? && OnDisk(run[1]) != run[1].t;
  }
}
