/**
 The checkpoint file of the per-stream index.

 After a magic, a version and the shard count, the file is a run of 64-bit words: the shard cursors,
 the streams with their (seq, gid) pairs in map order, and the next-seq counters in map order.
 */
module SeqMapFile {
  import opened Bytes
  import opened Reading
  import opened RecordIds
  import SeqMap

  datatype Pair = Pair(first: nat, second: nat)
  datatype Stream = Stream(id: nat, pairs: seq<Pair>)
  datatype Document = Document(cursors: seq<nat>, streams: seq<Stream>, nexts: seq<Pair>)

  const MAGIC: seq<Byte> := [0x4C, 0x44, 0x53, 0x43]
  const VERSION := 1

  // ── The words of a document ────────────────────────────────────────────────

  function PairWords(pairs: seq<Pair>): (ws: seq<nat>)
  {
    if pairs == [] then [] else [pairs[0].first, pairs[0].second] + PairWords(pairs[1..])
  }

  function StreamWords(streams: seq<Stream>): (ws: seq<nat>)
  {
    if streams == [] then []
    else [streams[0].id, |streams[0].pairs|] + (PairWords(streams[0].pairs) + StreamWords(streams[1..]))
  }

  function Words(doc: Document): (ws: seq<nat>)
  {
    doc.cursors + ([|doc.streams|] + (StreamWords(doc.streams) + ([|doc.nexts|] + PairWords(doc.nexts))))
  }

  // ── Reading words back ─────────────────────────────────────────────────────

  function TakePairs(ws: seq<nat>, n: nat): (r: Taken<seq<Pair>, nat>)
  {
    if n == 0 then Got([], ws)
    else if |ws| < 2 then Short
    else
      var r := TakePairs(ws[2..], n - 1);
      if r.Short? then Short else Got([Pair(ws[0], ws[1])] + r.value, r.rest)
  }

  function TakeStreams(ws: seq<nat>, n: nat): (r: Taken<seq<Stream>, nat>)
    decreases n
  {
    if n == 0 then Got([], ws)
    else if |ws| < 2 then Short
    else
      var pairs := TakePairs(ws[2..], ws[1]);
      if pairs.Short? then Short
      else
        var r := TakeStreams(pairs.rest, n - 1);
        if r.Short? then Short else Got([Stream(ws[0], pairs.value)] + r.value, r.rest)
  }

  function TakeCounts(ws: seq<nat>): (r: Taken<(seq<Stream>, seq<Pair>), nat>)
  {
    if |ws| < 1 then Short
    else
      var streams := TakeStreams(ws[1..], ws[0]);
      if streams.Short? || |streams.rest| < 1 then Short
      else
        var nexts := TakePairs(streams.rest[1..], streams.rest[0]);
        if nexts.Short? then Short else Got((streams.value, nexts.value), nexts.rest)
  }

  function TakeDocument(ws: seq<nat>, numShards: nat): (r: Taken<Document, nat>)
  {
    if |ws| < numShards then Short
    else
      var counts := TakeCounts(ws[numShards..]);
      if counts.Short? then Short else Got(Document(ws[..numShards], counts.value.0, counts.value.1), counts.rest)
  }

  lemma {:induction false} PairsReadBack(pairs: seq<Pair>, rest: seq<nat>)
    ensures TakePairs(PairWords(pairs) + rest, |pairs|) == Got(pairs, rest)
  {
    if pairs == [] {
      assert PairWords(pairs) + rest == rest;
    } else {
      var ws := PairWords(pairs) + rest;
      assert ws[2..] == PairWords(pairs[1..]) + rest;
      PairsReadBack(pairs[1..], rest);
      assert [Pair(ws[0], ws[1])] + pairs[1..] == pairs;
    }
  }

  lemma {:induction false} StreamsReadBack(streams: seq<Stream>, rest: seq<nat>)
    ensures TakeStreams(StreamWords(streams) + rest, |streams|) == Got(streams, rest)
  {
    if streams == [] {
      assert StreamWords(streams) + rest == rest;
    } else {
      var head := streams[0];
      var after := StreamWords(streams[1..]) + rest;
      FirstStream(streams, rest);
      PairsReadBack(head.pairs, after);
      StreamsReadBack(streams[1..], rest);
      assert [head] + streams[1..] == streams;
    }
  }

  lemma FirstStream(streams: seq<Stream>, rest: seq<nat>)
    requires streams != []
    ensures var ws := StreamWords(streams) + rest;
            && |ws| >= 2 && ws[0] == streams[0].id && ws[1] == |streams[0].pairs|
            && ws[2..] == PairWords(streams[0].pairs) + (StreamWords(streams[1..]) + rest)
  {
    Regroup3([streams[0].id, |streams[0].pairs|], PairWords(streams[0].pairs), StreamWords(streams[1..]), rest);
  }

  lemma Regroup3(a: seq<nat>, b: seq<nat>, c: seq<nat>, d: seq<nat>)
    ensures (a + (b + c)) + d == a + (b + (c + d))
    ensures ((a + (b + c)) + d)[|a|..] == b + (c + d)
  {
  }

  /** Whatever order the maps were written in, the document is read back. */
  lemma DocumentReadBack(doc: Document)
    ensures TakeDocument(Words(doc), |doc.cursors|) == Got(doc, [])
  {
    var tail := [|doc.nexts|] + PairWords(doc.nexts);
    var body := StreamWords(doc.streams) + tail;
    var ws := Words(doc);
    assert ws[..|doc.cursors|] == doc.cursors;
    assert ws[|doc.cursors|..] == [|doc.streams|] + body;
    assert ([|doc.streams|] + body)[1..] == body;
    StreamsReadBack(doc.streams, tail);
    assert tail[1..] == PairWords(doc.nexts) + [];
    PairsReadBack(doc.nexts, []);
  }

  // ── Bytes ──────────────────────────────────────────────────────────────────

  function Header(numShards: nat): (bs: seq<Byte>)
    ensures |bs| == 12
  {
    MAGIC + (Le(VERSION, 4) + Le(numShards, 4))
  }

  function Layout(doc: Document): (data: seq<Byte>)
  {
    Header(|doc.cursors|) + U64s(Words(doc))
  }

  /** The whole 64-bit words after the header. */
  function WordsOf(data: seq<Byte>): (ws: seq<nat>)
    requires |data| >= 12
  {
    seq((|data| - 12) / 8, i requires 0 <= i < (|data| - 12) / 8 => FieldAt(data, 12 + 8 * i, 8))
  }

  lemma WordReadBack(head: seq<Byte>, ws: seq<nat>, i: nat)
    requires |head| == 12 && i < |ws| && ws[i] < Pow256(8)
    ensures FieldAt(head + U64s(ws), 12 + 8 * i, 8) == ws[i]
  {
    U64At(head, ws, [], i);
    assert head + U64s(ws) + [] == head + U64s(ws);
  }

  predicate HoldsWord(data: seq<Byte>, i: nat, w: nat)
  {
    12 + 8 * i + 8 <= |data| && FieldAt(data, 12 + 8 * i, 8) == w
  }

  lemma WordsAre(data: seq<Byte>, ws: seq<nat>)
    requires |data| == 12 + 8 * |ws| && forall i :: 0 <= i < |ws| ==> HoldsWord(data, i, ws[i])
    ensures WordsOf(data) == ws
  {
  }

  lemma WordsReadBack(head: seq<Byte>, ws: seq<nat>)
    requires |head| == 12 && forall i :: 0 <= i < |ws| ==> ws[i] < Pow256(8)
    ensures WordsOf(head + U64s(ws)) == ws
  {
    var data := head + U64s(ws);
    forall i | 0 <= i < |ws|
      ensures HoldsWord(data, i, ws[i])
    {
      WordReadBack(head, ws, i);
    }
    WordsAre(data, ws);
  }

  /** A wrong header is refused; a body cut short makes the reader panic. */
  datatype Outcome = Loaded(doc: Document) | Refused | Panicked

  predicate HeaderOk(data: seq<Byte>, numShards: nat)
  {
    |data| >= 20 && data[0..4] == MAGIC && FieldAt(data, 4, 4) == VERSION && FieldAt(data, 8, 4) == numShards
  }

  function Parse(data: seq<Byte>, numShards: nat): (r: Outcome)
  {
    if !HeaderOk(data, numShards) then Refused
    else
      var doc := TakeDocument(WordsOf(data), numShards);
      if doc.Short? then Panicked else Loaded(doc.value)
  }

  lemma HeaderReadBack(numShards: nat, rest: seq<Byte>)
    requires numShards < Pow256(4) && |rest| >= 8
    ensures HeaderOk(Header(numShards) + rest, numShards)
  {
    var data := Header(numShards) + rest;
    Widths();
    assert data[0..4] == MAGIC;
    assert data == MAGIC + Le(VERSION, 4) + (Le(numShards, 4) + rest);
    FieldAfter(MAGIC, VERSION, 4, Le(numShards, 4) + rest);
    assert data == (MAGIC + Le(VERSION, 4)) + Le(numShards, 4) + rest;
    FieldAfter(MAGIC + Le(VERSION, 4), numShards, 4, rest);
  }

  predicate Storable(doc: Document)
  {
    |doc.cursors| < 0x1_0000_0000 && forall i :: 0 <= i < |Words(doc)| ==> Words(doc)[i] < 0x1_0000_0000_0000_0000
  }

  /** A written file is read back word for word. */
  lemma FileRoundTrip(doc: Document)
    requires Storable(doc)
    ensures Parse(Layout(doc), |doc.cursors|) == Loaded(doc)
  {
    Widths();
    assert |Words(doc)| >= 2;
    HeaderReadBack(|doc.cursors|, U64s(Words(doc)));
    WordsReadBack(Header(|doc.cursors|), Words(doc));
    DocumentReadBack(doc);
  }

  /** A file written for another number of shards is refused. */
  lemma OtherShardCountRefused(doc: Document, numShards: nat)
    requires Storable(doc) && numShards != |doc.cursors|
    ensures Parse(Layout(doc), numShards) == Refused
  {
    Widths();
    HeaderReadBack(|doc.cursors|, U64s(Words(doc)));
  }

  // ── Writing, field by field ────────────────────────────────────────────────

  lemma {:induction false} U64sConcat(a: seq<nat>, b: seq<nat>)
    ensures U64s(a + b) == U64s(a) + U64s(b)
  {
    if b == [] {
      assert a + b == a;
    } else {
      var last := |b| - 1;
      U64sConcat(a, b[..last]);
      U64sSnoc(a + b[..last], b[last]);
      assert a + b == (a + b[..last]) + [b[last]];
      Assoc(U64s(a), U64s(b[..last]), Le(b[last], 8));
    }
  }

  lemma U64sSnoc(ws: seq<nat>, w: nat)
    ensures U64s(ws + [w]) == U64s(ws) + Le(w, 8)
  {
    assert (ws + [w])[..|ws|] == ws;
  }

  lemma {:induction false} PairWordsSnoc(pairs: seq<Pair>, p: Pair)
    ensures PairWords(pairs + [p]) == PairWords(pairs) + [p.first, p.second]
  {
    if pairs != [] {
      PairWordsSnoc(pairs[1..], p);
      assert (pairs + [p])[1..] == pairs[1..] + [p];
    }
  }

  lemma {:induction false} StreamWordsSnoc(streams: seq<Stream>, x: Stream)
    ensures StreamWords(streams + [x]) == StreamWords(streams) + ([x.id, |x.pairs|] + PairWords(x.pairs))
  {
    if streams == [] {
      assert ([] + [x])[1..] == [];
      assert PairWords(x.pairs) + [] == PairWords(x.pairs);
    } else {
      StreamWordsSnoc(streams[1..], x);
      assert (streams + [x])[1..] == streams[1..] + [x];
      Regroup3([streams[0].id, |streams[0].pairs|], PairWords(streams[0].pairs), StreamWords(streams[1..]),
               [x.id, |x.pairs|] + PairWords(x.pairs));
    }
  }

  lemma WordMore(data: seq<Byte>, ws: seq<nat>, w: nat)
    ensures data + U64s(ws) + Le(w, 8) == data + U64s(ws + [w])
  {
    U64sSnoc(ws, w);
    Assoc(data, U64s(ws), Le(w, 8));
  }

  lemma WordsMore(data: seq<Byte>, ws: seq<nat>, more: seq<nat>)
    ensures data + U64s(ws) + U64s(more) == data + U64s(ws + more)
  {
    U64sConcat(ws, more);
    Assoc(data, U64s(ws), U64s(more));
  }

  lemma TwoMore(data: seq<Byte>, ws: seq<nat>, a: nat, b: nat)
    ensures data + U64s(ws) + Le(a, 8) + Le(b, 8) == data + U64s(ws + [a, b])
  {
    WordMore(data, ws, a);
    WordMore(data, ws + [a], b);
    assert ws + [a, b] == (ws + [a]) + [b];
  }

  method WriteWords(data: seq<Byte>, ws: seq<nat>) returns (data': seq<Byte>)
    ensures data' == data + U64s(ws)
  {
    data' := data;
    for i := 0 to |ws|
      invariant data' == data + U64s(ws[..i])
    {
      U64sSnoc(ws[..i], ws[i]);
      assert ws[..i + 1] == ws[..i] + [ws[i]];
      data' := data' + Le(ws[i], 8);
    }
    assert ws[..|ws|] == ws;
  }

  method WritePairs(data: seq<Byte>, pairs: seq<Pair>) returns (data': seq<Byte>)
    ensures data' == data + U64s(PairWords(pairs))
  {
    data' := data;
    for i := 0 to |pairs|
      invariant data' == data + U64s(PairWords(pairs[..i]))
    {
      PairWordsSnoc(pairs[..i], pairs[i]);
      TwoMore(data, PairWords(pairs[..i]), pairs[i].first, pairs[i].second);
      assert pairs[..i + 1] == pairs[..i] + [pairs[i]];
      data' := data' + Le(pairs[i].first, 8) + Le(pairs[i].second, 8);
    }
    assert pairs[..|pairs|] == pairs;
  }

  lemma OneMoreStream(data: seq<Byte>, streams: seq<Stream>, x: Stream)
    ensures data + U64s(StreamWords(streams)) + Le(x.id, 8) + Le(|x.pairs|, 8) + U64s(PairWords(x.pairs))
            == data + U64s(StreamWords(streams + [x]))
  {
    var ws, head := StreamWords(streams), [x.id, |x.pairs|];
    StreamWordsSnoc(streams, x);
    TwoMore(data, ws, x.id, |x.pairs|);
    WordsMore(data, ws + head, PairWords(x.pairs));
    Assoc(ws, head, PairWords(x.pairs));
  }

  method WriteStream(data: seq<Byte>, x: Stream) returns (data': seq<Byte>)
    ensures data' == data + Le(x.id, 8) + Le(|x.pairs|, 8) + U64s(PairWords(x.pairs))
  {
    data' := WritePairs(data + Le(x.id, 8) + Le(|x.pairs|, 8), x.pairs);
  }

  method WriteStreams(data: seq<Byte>, streams: seq<Stream>) returns (data': seq<Byte>)
    ensures data' == data + U64s(StreamWords(streams))
  {
    data' := data;
    for i := 0 to |streams|
      invariant data' == data + U64s(StreamWords(streams[..i]))
    {
      OneMoreStream(data, streams[..i], streams[i]);
      TakeMore(streams, i);
      data' := WriteStream(data', streams[i]);
    }
    TakeAll(streams);
  }

  lemma TakeMore<T>(s: seq<T>, i: nat)
    requires i < |s|
    ensures s[..i + 1] == s[..i] + [s[i]]
  {
  }

  lemma TakeAll<T>(s: seq<T>)
    ensures s[..|s|] == s
  {
  }

  lemma Pieces(head: seq<Byte>, a: seq<nat>, b: nat, c: seq<nat>, d: nat, e: seq<nat>)
    ensures head + U64s(a) + Le(b, 8) + U64s(c) + Le(d, 8) + U64s(e) == head + U64s(a + ([b] + (c + ([d] + e))))
  {
    WordMore(head, a, b);
    WordsMore(head, a + [b], c);
    WordMore(head, a + [b] + c, d);
    WordsMore(head, a + [b] + c + [d], e);
    Assoc(a + [b] + c, [d], e);
    Assoc(a + [b], c, [d] + e);
    Assoc(a, [b], c + ([d] + e));
  }

  method Save(doc: Document) returns (data: seq<Byte>)
    ensures data == Layout(doc)
  {
    var head := MAGIC + (Le(VERSION, 4) + Le(|doc.cursors|, 4));
    data := WriteWords(head, doc.cursors);
    data := data + Le(|doc.streams|, 8);
    data := WriteStreams(data, doc.streams);
    data := data + Le(|doc.nexts|, 8);
    data := WritePairs(data, doc.nexts);
    Pieces(head, doc.cursors, |doc.streams|, StreamWords(doc.streams), |doc.nexts|, PairWords(doc.nexts));
  }

  // ── Reading, position by position ──────────────────────────────────────────

  lemma PairStep(ws: seq<nat>, at: nat, n: nat, pairs: seq<Pair>)
    requires n > 0 && at + 2 <= |ws|
    ensures After(pairs, TakePairs(ws[at..], n)) == After(pairs + [Pair(ws[at], ws[at + 1])], TakePairs(ws[at + 2..], n - 1))
  {
    assert ws[at..][2..] == ws[at + 2..];
    AfterMore(pairs, Pair(ws[at], ws[at + 1]), TakePairs(ws[at + 2..], n - 1));
  }

  /** Reads `n` pairs from word `at` on. */
  method ReadPairs(ws: seq<nat>, at: nat, n: nat) returns (r: Taken<seq<Pair>, nat>, end: nat)
    requires at <= |ws|
    ensures r == TakePairs(ws[at..], n)
    ensures r.Got? ==> end <= |ws| && r.rest == ws[end..]
  {
    var pairs: seq<Pair>, i: nat := [], 0;
    end := at;
    AfterNone(TakePairs(ws[at..], n));
    while i < n
      invariant i <= n && end <= |ws|
      invariant TakePairs(ws[at..], n) == After(pairs, TakePairs(ws[end..], n - i))
    {
      if end + 2 > |ws| {
        return Short, end;
      }
      PairStep(ws, end, n - i, pairs);
      pairs, end, i := pairs + [Pair(ws[end], ws[end + 1])], end + 2, i + 1;
    }
    r := Got(pairs, ws[end..]);
    assert pairs + [] == pairs;
  }

  lemma StreamStep(ws: seq<nat>, at: nat, n: nat, pairs: Taken<seq<Pair>, nat>, streams: seq<Stream>)
    requires n > 0 && at + 2 <= |ws| && pairs == TakePairs(ws[at + 2..], ws[at + 1])
    ensures pairs.Short? ==> TakeStreams(ws[at..], n) == Short
    ensures pairs.Got? ==> After(streams, TakeStreams(ws[at..], n)) == After(streams + [Stream(ws[at], pairs.value)], TakeStreams(pairs.rest, n - 1))
  {
    assert ws[at..][2..] == ws[at + 2..];
    if pairs.Got? {
      AfterMore(streams, Stream(ws[at], pairs.value), TakeStreams(pairs.rest, n - 1));
    }
  }

  method ReadStreams(ws: seq<nat>, at: nat, n: nat) returns (r: Taken<seq<Stream>, nat>, end: nat)
    requires at <= |ws|
    ensures r == TakeStreams(ws[at..], n)
    ensures r.Got? ==> end <= |ws| && r.rest == ws[end..]
  {
    var streams: seq<Stream>, i: nat := [], 0;
    end := at;
    AfterNone(TakeStreams(ws[at..], n));
    while i < n
      invariant i <= n && end <= |ws|
      invariant TakeStreams(ws[at..], n) == After(streams, TakeStreams(ws[end..], n - i))
    {
      if end + 2 > |ws| {
        return Short, end;
      }
      var pairs, next := ReadPairs(ws, end + 2, ws[end + 1]);
      StreamStep(ws, end, n - i, pairs, streams);
      if pairs.Short? {
        return Short, end;
      }
      streams, end, i := streams + [Stream(ws[end], pairs.value)], next, i + 1;
    }
    r := Got(streams, ws[end..]);
    assert streams + [] == streams;
  }

  /** Everything after the cursors. */
  method ReadCounts(ws: seq<nat>, at: nat) returns (r: Taken<(seq<Stream>, seq<Pair>), nat>)
    requires at <= |ws|
    ensures r == TakeCounts(ws[at..])
  {
    if at == |ws| {
      return Short;
    }
    assert ws[at..][1..] == ws[at + 1..];
    var streams, mid := ReadStreams(ws, at + 1, ws[at]);
    if streams.Short? || mid == |ws| {
      return Short;
    }
    assert ws[mid..][1..] == ws[mid + 1..];
    var nexts, end := ReadPairs(ws, mid + 1, ws[mid]);
    if nexts.Short? {
      return Short;
    }
    r := Got((streams.value, nexts.value), nexts.rest);
  }

  method ReadWords(data: seq<Byte>) returns (ws: seq<nat>)
    requires |data| >= 12
    ensures ws == WordsOf(data)
  {
    ws := [];
    var pos := 12;
    while pos + 8 <= |data|
      invariant pos == 12 + 8 * |ws| <= |data|
      invariant forall i :: 0 <= i < |ws| ==> HoldsWord(data, i, ws[i])
    {
      ws := ws + [FieldAt(data, pos, 8)];
      pos := pos + 8;
    }
    ghost var read := WordsOf(data);
    forall i | 0 <= i < |ws|
      ensures read[i] == ws[i]
    {
      assert HoldsWord(data, i, ws[i]);
    }
  }

  /** Reads a checkpoint file for the configured number of shards. */
  method Load(data: seq<Byte>, numShards: nat) returns (r: Outcome)
    ensures r == Parse(data, numShards)
  {
    if |data| < 20 || data[0..4] != MAGIC {
      return Refused;
    }
    if FieldAt(data, 4, 4) != VERSION || FieldAt(data, 8, 4) != numShards {
      return Refused;
    }
    var ws := ReadWords(data);
    if |ws| < numShards {
      return Panicked;
    }
    var counts := ReadCounts(ws, numShards);
    if counts.Short? {
      return Panicked;
    }
    r := Loaded(Document(ws[..numShards], counts.value.0, counts.value.1));
  }

  // ── From documents to maps ─────────────────────────────────────────────────

  /** The pairs as map entries. */
  function Entries(pairs: seq<Pair>): (entries: seq<(nat, nat)>)
    ensures |entries| == |pairs| && forall i :: 0 <= i < |pairs| ==> entries[i] == (pairs[i].first, pairs[i].second)
  {
    seq(|pairs|, i requires 0 <= i < |pairs| => (pairs[i].first, pairs[i].second))
  }

  function ToMap(pairs: seq<Pair>): (m: map<nat, nat>)
  {
    FromEntries(Entries(pairs))
  }

  function StreamEntries(streams: seq<Stream>): (entries: seq<(nat, map<nat, nat>)>)
    ensures |entries| == |streams| && forall i :: 0 <= i < |streams| ==> entries[i] == (streams[i].id, ToMap(streams[i].pairs))
  {
    seq(|streams|, i requires 0 <= i < |streams| => (streams[i].id, ToMap(streams[i].pairs)))
  }

  function ToNested(streams: seq<Stream>): (m: map<nat, map<nat, nat>>)
  {
    FromEntries(StreamEntries(streams))
  }

  /** The streams are those of the index and each lists its stream's pairs, all in some order. */
  ghost predicate StreamsOf(streams: seq<Stream>, index: map<nat, map<nat, nat>>)
  {
    && (forall i :: 0 <= i < |streams| ==> streams[i].id in index && Lists(Entries(streams[i].pairs), index[streams[i].id]))
    && (forall k :: k in index ==> exists i :: 0 <= i < |streams| && streams[i].id == k)
  }

  lemma IndexReadBack(streams: seq<Stream>, index: map<nat, map<nat, nat>>)
    requires StreamsOf(streams, index)
    ensures ToNested(streams) == index
  {
    var entries := StreamEntries(streams);
    forall i | 0 <= i < |entries|
      ensures entries[i].0 in index && index[entries[i].0] == entries[i].1
    {
      EntriesRestore(Entries(streams[i].pairs), index[streams[i].id]);
    }
    forall k | k in index
      ensures exists i :: 0 <= i < |entries| && entries[i].0 == k
    {
      var i :| 0 <= i < |streams| && streams[i].id == k;
      assert entries[i].0 == k;
    }
    EntriesRestore(entries, index);
  }

  /** For every order the maps may be written in, loading the file gives back cursors, index and counters. */
  lemma CheckpointFileRoundTrip(doc: Document, index: map<nat, map<nat, nat>>, nexts: map<nat, nat>)
    requires Storable(doc) && StreamsOf(doc.streams, index) && Lists(Entries(doc.nexts), nexts)
    ensures var r := Parse(Layout(doc), |doc.cursors|);
            r.Loaded? && r.doc.cursors == doc.cursors && ToNested(r.doc.streams) == index && ToMap(r.doc.nexts) == nexts
  {
    FileRoundTrip(doc);
    IndexReadBack(doc.streams, index);
    EntriesRestore(Entries(doc.nexts), nexts);
  }

  // ── From record ids to places ──────────────────────────────────────────────

  ghost predicate SameKeys(index: map<nat, map<nat, nat>>, places: map<SeqMap.Key, SeqMap.Place>)
  {
    forall key :: key in places <==> key.stream in index && key.num in index[key.stream]
  }

  /** The stored ids are the encodings of the places. */
  ghost predicate Encoded(index: map<nat, map<nat, nat>>, places: map<SeqMap.Key, SeqMap.Place>, bits: nat)
  {
    && SameKeys(index, places)
    && forall key :: key in places ==>
                       && places[key].shard < Pow2(bits)
                       && index[key.stream][key.num] == Encode(places[key].shard, places[key].local, bits)
  }

  ghost predicate Decoded(index: map<nat, map<nat, nat>>, places: map<SeqMap.Key, SeqMap.Place>, bits: nat)
  {
    && SameKeys(index, places)
    && forall key :: key in places ==> Decode(index[key.stream][key.num], bits) == (places[key].shard, places[key].local)
  }

  /** The places survive their encoding exactly while every local sequence fits beside the shard bits. */
  lemma PlacesReadBackIff(index: map<nat, map<nat, nat>>, places: map<SeqMap.Key, SeqMap.Place>, bits: nat)
    requires bits <= 64 && Encoded(index, places, bits)
    requires forall key :: key in places ==> places[key].local < U64_SIZE
    ensures Decoded(index, places, bits) <==> forall key :: key in places ==> places[key].local < Pow2(64 - bits)
  {
    forall key | key in places
      ensures Decode(index[key.stream][key.num], bits) == (places[key].shard, places[key].local) <==>
              places[key].local < Pow2(64 - bits)
    {
      EncodeRoundTripIff(places[key].shard, places[key].local, bits);
    }
  }
}
