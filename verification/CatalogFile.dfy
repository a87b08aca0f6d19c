/**
 The catalog's snapshot file.

 A magic, a version and the number of namespaces, then each namespace with its streams, in whatever
 order the maps are iterated, and a checksum of all that.
 */
module CatalogFile {
  import opened Arith
  import opened Bytes
  import opened Reading
  import opened Catalog
  import opened Wrappers

  datatype StreamEntry = StreamEntry(id: nat, name: Name)
  datatype Namespace = Namespace(id: nat, name: Name, streams: seq<StreamEntry>)

  const MAGIC := 0x4341544C
  const VERSION := 1

  // ── Layout ─────────────────────────────────────────────────────────────────

  function NameBytes(name: Name): (bs: seq<Byte>)
  {
    Le(|name|, 2) + name
  }

  function StreamBytes(e: StreamEntry): (bs: seq<Byte>)
  {
    Le(e.id, 8) + NameBytes(e.name)
  }

  function StreamsBytes(es: seq<StreamEntry>): (bs: seq<Byte>)
  {
    if es == [] then [] else StreamBytes(es[0]) + StreamsBytes(es[1..])
  }

  function NamespaceBytes(n: Namespace): (bs: seq<Byte>)
  {
    Le(n.id, 4) + (NameBytes(n.name) + (Le(|n.streams|, 4) + StreamsBytes(n.streams)))
  }

  function NamespacesBytes(ns: seq<Namespace>): (bs: seq<Byte>)
  {
    if ns == [] then [] else NamespaceBytes(ns[0]) + NamespacesBytes(ns[1..])
  }

  function Body(doc: seq<Namespace>): (bs: seq<Byte>)
    ensures |bs| >= 10
  {
    Le(MAGIC, 4) + (Le(VERSION, 2) + (Le(|doc|, 4) + NamespacesBytes(doc)))
  }

  function File(doc: seq<Namespace>, crc: seq<Byte> -> Word32): (data: seq<Byte>)
  {
    Body(doc) + Le(crc(Body(doc)), 4)
  }

  // ── Parsing ────────────────────────────────────────────────────────────────

  function TakeNumber(bs: seq<Byte>, width: nat): (r: Taken<nat, Byte>)
  {
    if |bs| < width then Short else Got(FromLe(bs[..width]), bs[width..])
  }

  function TakeName(bs: seq<Byte>, utf8: Name -> bool): (r: Taken<Name, Byte>)
  {
    var len := TakeNumber(bs, 2);
    if len.Short? || |len.rest| < len.value || !utf8(len.rest[..len.value]) then Short
    else Got(len.rest[..len.value], len.rest[len.value..])
  }

  function TakeStream(bs: seq<Byte>, utf8: Name -> bool): (r: Taken<StreamEntry, Byte>)
  {
    var id := TakeNumber(bs, 8);
    if id.Short? then Short
    else
      var name := TakeName(id.rest, utf8);
      if name.Short? then Short else Got(StreamEntry(id.value, name.value), name.rest)
  }

  function TakeStreams(bs: seq<Byte>, n: nat, utf8: Name -> bool): (r: Taken<seq<StreamEntry>, Byte>)
    decreases n
  {
    if n == 0 then Got([], bs)
    else
      var first := TakeStream(bs, utf8);
      if first.Short? then Short
      else
        var others := TakeStreams(first.rest, n - 1, utf8);
        if others.Short? then Short else Got([first.value] + others.value, others.rest)
  }

  function TakeNamespace(bs: seq<Byte>, utf8: Name -> bool): (r: Taken<Namespace, Byte>)
  {
    var id := TakeNumber(bs, 4);
    if id.Short? then Short
    else
      var name := TakeName(id.rest, utf8);
      if name.Short? then Short
      else
        var count := TakeNumber(name.rest, 4);
        if count.Short? then Short
        else
          var streams := TakeStreams(count.rest, count.value, utf8);
          if streams.Short? then Short else Got(Namespace(id.value, name.value, streams.value), streams.rest)
  }

  function TakeNamespaces(bs: seq<Byte>, n: nat, utf8: Name -> bool): (r: Taken<seq<Namespace>, Byte>)
    decreases n
  {
    if n == 0 then Got([], bs)
    else
      var first := TakeNamespace(bs, utf8);
      if first.Short? then Short
      else
        var others := TakeNamespaces(first.rest, n - 1, utf8);
        if others.Short? then Short else Got([first.value] + others.value, others.rest)
  }

  predicate HeaderOk(data: seq<Byte>, crc: seq<Byte> -> Word32)
  {
    && |data| >= 10
    && FieldAt(data, |data| - 4, 4) == crc(data[..|data| - 4])
    && FieldAt(data, 0, 4) == MAGIC && FieldAt(data, 4, 2) == VERSION
  }

  /** Everything after the namespace count, without the checksum. */
  function Rest(data: seq<Byte>): (bs: seq<Byte>)
  {
    if |data| < 14 then [] else data[10..|data| - 4]
  }

  /** `None` is the source's report of a corrupted snapshot. */
  function Parse(data: seq<Byte>, crc: seq<Byte> -> Word32, utf8: Name -> bool): (r: Option<seq<Namespace>>)
  {
    if !HeaderOk(data, crc) then None
    else
      var doc := TakeNamespaces(Rest(data), FieldAt(data, 6, 4), utf8);
      if doc.Short? then None else Some(doc.value)
  }

  // ── Round trip ─────────────────────────────────────────────────────────────

  predicate NameFits(name: Name, utf8: Name -> bool)
  {
    |name| < 0x1_0000 && utf8(name)
  }

  predicate StreamFits(e: StreamEntry, utf8: Name -> bool)
  {
    e.id < 0x1_0000_0000_0000_0000 && NameFits(e.name, utf8)
  }

  predicate NamespaceFits(n: Namespace, utf8: Name -> bool)
  {
    && n.id < 0x1_0000_0000 && NameFits(n.name, utf8) && |n.streams| < 0x1_0000_0000
    && forall i :: 0 <= i < |n.streams| ==> StreamFits(n.streams[i], utf8)
  }

  lemma NumberReadBack(n: nat, width: nat, rest: seq<Byte>)
    requires n < Pow256(width)
    ensures TakeNumber(Le(n, width) + rest, width) == Got(n, rest)
  {
    assert (Le(n, width) + rest)[..width] == Le(n, width);
    assert (Le(n, width) + rest)[width..] == rest;
    LeRoundTrip(n, width);
  }

  lemma NameReadBack(name: Name, utf8: Name -> bool, rest: seq<Byte>)
    requires NameFits(name, utf8)
    ensures TakeName(NameBytes(name) + rest, utf8) == Got(name, rest)
  {
    Widths();
    NumberReadBack(|name|, 2, name + rest);
    Assoc(Le(|name|, 2), name, rest);
    assert (name + rest)[..|name|] == name;
    assert (name + rest)[|name|..] == rest;
  }

  lemma StreamReadBack(e: StreamEntry, utf8: Name -> bool, rest: seq<Byte>)
    requires StreamFits(e, utf8)
    ensures TakeStream(StreamBytes(e) + rest, utf8) == Got(e, rest)
  {
    Widths();
    Assoc(Le(e.id, 8), NameBytes(e.name), rest);
    NumberReadBack(e.id, 8, NameBytes(e.name) + rest);
    NameReadBack(e.name, utf8, rest);
  }

  lemma {:induction false} StreamsReadBack(es: seq<StreamEntry>, utf8: Name -> bool, rest: seq<Byte>)
    requires forall i :: 0 <= i < |es| ==> StreamFits(es[i], utf8)
    ensures TakeStreams(StreamsBytes(es) + rest, |es|, utf8) == Got(es, rest)
  {
    if es == [] {
      assert StreamsBytes(es) + rest == rest;
    } else {
      var after := StreamsBytes(es[1..]) + rest;
      Assoc(StreamBytes(es[0]), StreamsBytes(es[1..]), rest);
      StreamReadBack(es[0], utf8, after);
      StreamsReadBack(es[1..], utf8, rest);
      assert [es[0]] + es[1..] == es;
    }
  }

  lemma NamespaceReadBack(n: Namespace, utf8: Name -> bool, rest: seq<Byte>)
    requires NamespaceFits(n, utf8)
    ensures TakeNamespace(NamespaceBytes(n) + rest, utf8) == Got(n, rest)
  {
    Widths();
    var a, b, c, d := Le(n.id, 4), NameBytes(n.name), Le(|n.streams|, 4), StreamsBytes(n.streams);
    Assoc(a, b + (c + d), rest);
    Assoc(b, c + d, rest);
    Assoc(c, d, rest);
    NumberReadBack(n.id, 4, b + (c + (d + rest)));
    NameReadBack(n.name, utf8, c + (d + rest));
    NumberReadBack(|n.streams|, 4, d + rest);
    StreamsReadBack(n.streams, utf8, rest);
  }

  lemma {:induction false} NamespacesReadBack(ns: seq<Namespace>, utf8: Name -> bool, rest: seq<Byte>)
    requires forall i :: 0 <= i < |ns| ==> NamespaceFits(ns[i], utf8)
    ensures TakeNamespaces(NamespacesBytes(ns) + rest, |ns|, utf8) == Got(ns, rest)
  {
    if ns == [] {
      assert NamespacesBytes(ns) + rest == rest;
    } else {
      var after := NamespacesBytes(ns[1..]) + rest;
      Assoc(NamespaceBytes(ns[0]), NamespacesBytes(ns[1..]), rest);
      NamespaceReadBack(ns[0], utf8, after);
      NamespacesReadBack(ns[1..], utf8, rest);
      TakenMore(NamespaceBytes(ns[0]) + after, ns[0], after, ns[1..], rest, utf8);
      assert [ns[0]] + ns[1..] == ns;
    }
  }

  lemma TakenMore(bs: seq<Byte>, n: Namespace, after: seq<Byte>, ns: seq<Namespace>, rest: seq<Byte>, utf8: Name -> bool)
    requires TakeNamespace(bs, utf8) == Got(n, after) && TakeNamespaces(after, |ns|, utf8) == Got(ns, rest)
    ensures TakeNamespaces(bs, |ns| + 1, utf8) == Got([n] + ns, rest)
  {
  }

  lemma HeaderReadBack(doc: seq<Namespace>, crc: seq<Byte> -> Word32)
    requires |doc| < Pow256(4)
    ensures var data := File(doc, crc); HeaderOk(data, crc) && FieldAt(data, 6, 4) == |doc| && Rest(data) == NamespacesBytes(doc)
  {
    Widths();
    var body, sum := Body(doc), Le(crc(Body(doc)), 4);
    var data, more := File(doc, crc), NamespacesBytes(doc);
    assert data[..|data| - 4] == body;
    FieldAfter(body, crc(body), 4, []);
    assert body + sum + [] == data;
    HeaderFields(Le(MAGIC, 4), Le(VERSION, 2), Le(|doc|, 4), more, sum);
    FieldAfter([], MAGIC, 4, Le(VERSION, 2) + (Le(|doc|, 4) + (more + sum)));
    FieldAfter(Le(MAGIC, 4), VERSION, 2, Le(|doc|, 4) + (more + sum));
    FieldAfter(Le(MAGIC, 4) + Le(VERSION, 2), |doc|, 4, more + sum);
  }

  lemma HeaderFields(a: seq<Byte>, b: seq<Byte>, c: seq<Byte>, d: seq<Byte>, e: seq<Byte>)
    requires |a| == 4 && |b| == 2 && |c| == 4 && |e| == 4
    ensures var data := (a + (b + (c + d))) + e;
            && data == [] + a + (b + (c + (d + e))) && data == a + b + (c + (d + e)) && data == (a + b) + c + (d + e)
            && data[10..|data| - 4] == d
  {
  }

  /** Loading undoes saving, in whatever order namespaces and streams were written. */
  lemma FileRoundTrip(doc: seq<Namespace>, crc: seq<Byte> -> Word32, utf8: Name -> bool)
    requires |doc| < 0x1_0000_0000 && forall i :: 0 <= i < |doc| ==> NamespaceFits(doc[i], utf8)
    ensures Parse(File(doc, crc), crc, utf8) == Some(doc)
  {
    Widths();
    HeaderReadBack(doc, crc);
    NamespacesReadBack(doc, utf8, []);
    assert NamespacesBytes(doc) + [] == NamespacesBytes(doc);
  }

  // ── From the tables to a document ──────────────────────────────────────────

  /** The streams of one namespace, in the order the stream map is iterated. */
  function StreamsOf(id: nat, streams: seq<(StreamKey, nat)>): (es: seq<StreamEntry>)
  {
    if streams == [] then []
    else
      var es, last := StreamsOf(id, streams[..|streams| - 1]), streams[|streams| - 1];
      if last.0.ns == id then es + [StreamEntry(last.1, last.0.name)] else es
  }

  function Documented(namespaces: seq<(Name, nat)>, streams: seq<(StreamKey, nat)>): (doc: seq<Namespace>)
    ensures |doc| == |namespaces|
    ensures forall i :: 0 <= i < |doc| ==> doc[i] == Namespace(namespaces[i].1, namespaces[i].0, StreamsOf(namespaces[i].1, streams))
  {
    seq(|namespaces|, i requires 0 <= i < |namespaces| => Namespace(namespaces[i].1, namespaces[i].0, StreamsOf(namespaces[i].1, streams)))
  }

  lemma {:induction false} StreamsSnoc(es: seq<StreamEntry>, e: StreamEntry)
    ensures StreamsBytes(es + [e]) == StreamsBytes(es) + StreamBytes(e)
  {
    if es == [] {
      assert ([] + [e])[1..] == [];
      assert StreamBytes(e) + [] == StreamBytes(e);
      assert [] + StreamBytes(e) == StreamBytes(e);
    } else {
      StreamsSnoc(es[1..], e);
      assert (es + [e])[1..] == es[1..] + [e];
      Assoc(StreamBytes(es[0]), StreamsBytes(es[1..]), StreamBytes(e));
    }
  }

  lemma {:induction false} NamespacesSnoc(ns: seq<Namespace>, n: Namespace)
    ensures NamespacesBytes(ns + [n]) == NamespacesBytes(ns) + NamespaceBytes(n)
  {
    if ns == [] {
      assert ([] + [n])[1..] == [];
      assert NamespaceBytes(n) + [] == NamespaceBytes(n);
      assert [] + NamespaceBytes(n) == NamespaceBytes(n);
    } else {
      NamespacesSnoc(ns[1..], n);
      assert (ns + [n])[1..] == ns[1..] + [n];
      Assoc(NamespaceBytes(ns[0]), NamespacesBytes(ns[1..]), NamespaceBytes(n));
    }
  }

  method Collect(id: nat, streams: seq<(StreamKey, nat)>) returns (es: seq<StreamEntry>)
    ensures es == StreamsOf(id, streams)
  {
    es := [];
    for i := 0 to |streams|
      invariant es == StreamsOf(id, streams[..i])
    {
      assert streams[..i + 1][..i] == streams[..i];
      if streams[i].0.ns == id {
        es := es + [StreamEntry(streams[i].1, streams[i].0.name)];
      }
    }
    assert streams[..|streams|] == streams;
  }

  method WriteStreams(es: seq<StreamEntry>) returns (bs: seq<Byte>)
    ensures bs == StreamsBytes(es)
  {
    bs := [];
    for i := 0 to |es|
      invariant bs == StreamsBytes(es[..i])
    {
      StreamsSnoc(es[..i], es[i]);
      assert es[..i + 1] == es[..i] + [es[i]];
      bs := bs + (Le(es[i].id, 8) + (Le(|es[i].name|, 2) + es[i].name));
    }
    assert es[..|es|] == es;
  }

  /** Serialises the maps as they are iterated. */
  method Serialize(namespaces: seq<(Name, nat)>, streams: seq<(StreamKey, nat)>, crc: seq<Byte> -> Word32) returns (data: seq<Byte>)
    ensures data == File(Documented(namespaces, streams), crc)
  {
    var body: seq<Byte> := [];
    ghost var doc := Documented(namespaces, streams);
    for i := 0 to |namespaces|
      invariant body == NamespacesBytes(doc[..i])
    {
      var es := Collect(namespaces[i].1, streams);
      var written := WriteStreams(es);
      NamespacesSnoc(doc[..i], doc[i]);
      assert doc[..i + 1] == doc[..i] + [doc[i]];
      body := body + (Le(namespaces[i].1, 4) + (NameBytes(namespaces[i].0) + (Le(|es|, 4) + written)));
    }
    assert doc[..|doc|] == doc;
    var all := Le(MAGIC, 4) + (Le(VERSION, 2) + (Le(|namespaces|, 4) + body));
    data := all + Le(crc(all), 4);
  }

  // ── From a document to the tables ──────────────────────────────────────────

  function NameEntries(doc: seq<Namespace>): (entries: seq<(Name, nat)>)
    ensures |entries| == |doc| && forall i :: 0 <= i < |doc| ==> entries[i] == (doc[i].name, doc[i].id)
  {
    seq(|doc|, i requires 0 <= i < |doc| => (doc[i].name, doc[i].id))
  }

  function KeyEntries(ns: nat, es: seq<StreamEntry>): (entries: seq<(StreamKey, nat)>)
    ensures |entries| == |es| && forall i :: 0 <= i < |es| ==> entries[i] == (StreamKey(ns, es[i].name), es[i].id)
  {
    seq(|es|, i requires 0 <= i < |es| => (StreamKey(ns, es[i].name), es[i].id))
  }

  function AllKeys(doc: seq<Namespace>): (entries: seq<(StreamKey, nat)>)
  {
    if doc == [] then []
    else AllKeys(doc[..|doc| - 1]) + KeyEntries(doc[|doc| - 1].id, doc[|doc| - 1].streams)
  }

  function MaxId<K>(entries: seq<(K, nat)>): (n: nat)
  {
    if entries == [] then 0 else Max(MaxId(entries[..|entries| - 1]), entries[|entries| - 1].1)
  }

  function Built(doc: seq<Namespace>): (t: Tables)
  {
    var names, keys := NameEntries(doc), AllKeys(doc);
    Tables(FromEntries(names), FromEntries(Flip(names)), FromEntries(keys), FromEntries(Flip(keys)), MaxId(names) + 1, MaxId(keys) + 1)
  }

  lemma FlipMore<K, V>(entries: seq<(K, V)>, k: K, v: V)
    ensures Flip(entries + [(k, v)]) == Flip(entries) + [(v, k)]
  {
  }

  lemma MaxMore<K>(entries: seq<(K, nat)>, k: K, v: nat)
    ensures MaxId(entries + [(k, v)]) == Max(MaxId(entries), v)
  {
    assert (entries + [(k, v)])[..|entries|] == entries;
  }

  /** One insertion into a pair of maps and their highest id. */
  lemma Inserted<K>(entries: seq<(K, nat)>, k: K, id: nat)
    ensures FromEntries(entries + [(k, id)]) == FromEntries(entries)[k := id]
    ensures FromEntries(Flip(entries + [(k, id)])) == FromEntries(Flip(entries))[id := k]
    ensures MaxId(entries + [(k, id)]) == Max(MaxId(entries), id)
  {
    OneMoreEntry(entries, k, id);
    FlipMore(entries, k, id);
    OneMoreEntry(Flip(entries), id, k);
    MaxMore(entries, k, id);
  }

  /** The maps and the counter of one kind of id, given the insertions made. */
  ghost predicate Holds<K>(entries: seq<(K, nat)>, forward: map<K, nat>, backward: map<nat, K>, max: nat)
  {
    forward == FromEntries(entries) && backward == FromEntries(Flip(entries)) && max == MaxId(entries)
  }

  lemma HoldsMore<K>(entries: seq<(K, nat)>, forward: map<K, nat>, backward: map<nat, K>, max: nat, k: K, id: nat)
    requires Holds(entries, forward, backward, max)
    ensures Holds(entries + [(k, id)], forward[k := id], backward[id := k], Max(max, id))
  {
    Inserted(entries, k, id);
  }

  lemma MoreKeys(before: seq<(StreamKey, nat)>, n: Namespace, i: nat)
    requires i < |n.streams|
    ensures before + KeyEntries(n.id, n.streams[..i]) + [(StreamKey(n.id, n.streams[i].name), n.streams[i].id)]
            == before + KeyEntries(n.id, n.streams[..i + 1])
  {
  }

  method InsertStreams(n: Namespace, ghost before: seq<(StreamKey, nat)>, streams: map<StreamKey, nat>, info: map<nat, StreamKey>, max: nat)
    returns (streams': map<StreamKey, nat>, info': map<nat, StreamKey>, max': nat)
    requires Holds(before, streams, info, max)
    ensures Holds(before + KeyEntries(n.id, n.streams), streams', info', max')
  {
    streams', info', max' := streams, info, max;
    assert before + KeyEntries(n.id, n.streams[..0]) == before;
    for i := 0 to |n.streams|
      invariant Holds(before + KeyEntries(n.id, n.streams[..i]), streams', info', max')
    {
      var key, id := StreamKey(n.id, n.streams[i].name), n.streams[i].id;
      ghost var so := before + KeyEntries(n.id, n.streams[..i]);
      HoldsMore(so, streams', info', max', key, id);
      MoreKeys(before, n, i);
      streams', info', max' := streams'[key := id], info'[id := key], Max(max', id);
    }
    assert n.streams[..|n.streams|] == n.streams;
  }

  /** Fills the tables from the parsed namespaces, in file order. */
  method Build(doc: seq<Namespace>) returns (t: Tables)
    ensures t == Built(doc)
  {
    var namespaces: map<Name, nat>, names: map<nat, Name>, maxNs: nat := map[], map[], 0;
    var streams: map<StreamKey, nat>, info: map<nat, StreamKey>, maxStream: nat := map[], map[], 0;
    for i := 0 to |doc|
      invariant Holds(NameEntries(doc[..i]), namespaces, names, maxNs)
      invariant Holds(AllKeys(doc[..i]), streams, info, maxStream)
    {
      Inserted(NameEntries(doc[..i]), doc[i].name, doc[i].id);
      assert NameEntries(doc[..i + 1]) == NameEntries(doc[..i]) + [(doc[i].name, doc[i].id)];
      assert doc[..i + 1][..i] == doc[..i];
      namespaces, names, maxNs := namespaces[doc[i].name := doc[i].id], names[doc[i].id := doc[i].name], Max(maxNs, doc[i].id);
      streams, info, maxStream := InsertStreams(doc[i], AllKeys(doc[..i]), streams, info, maxStream);
    }
    assert doc[..|doc|] == doc;
    t := Tables(namespaces, names, streams, info, maxNs + 1, maxStream + 1);
  }

  // ── A saved snapshot restores the tables ───────────────────────────────────

  lemma {:induction false} StreamsOfIff(id: nat, streams: seq<(StreamKey, nat)>, e: StreamEntry)
    ensures e in StreamsOf(id, streams) <==> (StreamKey(id, e.name), e.id) in streams
  {
    if streams != [] {
      var init, last := streams[..|streams| - 1], streams[|streams| - 1];
      StreamsOfIff(id, init, e);
      assert streams == init + [last];
    }
  }

  lemma KeyEntriesIff(ns: nat, es: seq<StreamEntry>, key: StreamKey, id: nat)
    ensures (key, id) in KeyEntries(ns, es) <==> key.ns == ns && StreamEntry(id, key.name) in es
  {
  }

  lemma {:induction false} AllKeysIff(doc: seq<Namespace>, key: StreamKey, id: nat)
    ensures (key, id) in AllKeys(doc) <==> exists i :: 0 <= i < |doc| && (key, id) in KeyEntries(doc[i].id, doc[i].streams)
  {
    if doc != [] {
      var init, last := doc[..|doc| - 1], doc[|doc| - 1];
      AllKeysIff(init, key, id);
      if (key, id) in AllKeys(init) {
        var i :| 0 <= i < |init| && (key, id) in KeyEntries(init[i].id, init[i].streams);
        assert (key, id) in KeyEntries(doc[i].id, doc[i].streams);
      }
      if exists i :: 0 <= i < |doc| && (key, id) in KeyEntries(doc[i].id, doc[i].streams) {
        var i :| 0 <= i < |doc| && (key, id) in KeyEntries(doc[i].id, doc[i].streams);
        if i < |init| {
          assert init[i] == doc[i];
        }
      }
    }
  }

  /** The document of the iterated maps lists exactly the streams whose namespace is listed. */
  lemma DocumentedKeys(namespaces: seq<(Name, nat)>, streams: seq<(StreamKey, nat)>, key: StreamKey, id: nat)
    ensures (key, id) in AllKeys(Documented(namespaces, streams)) <==>
            (key, id) in streams && exists i :: 0 <= i < |namespaces| && namespaces[i].1 == key.ns
  {
    var doc := Documented(namespaces, streams);
    AllKeysIff(doc, key, id);
    StreamsOfIff(key.ns, streams, StreamEntry(id, key.name));
    forall i | 0 <= i < |doc|
      ensures (key, id) in KeyEntries(doc[i].id, doc[i].streams) <==> namespaces[i].1 == key.ns && (key, id) in streams
    {
      KeyEntriesIff(doc[i].id, doc[i].streams, key, id);
    }
  }

  lemma KeysListed(t: Tables, namespaces: seq<(Name, nat)>, streams: seq<(StreamKey, nat)>)
    requires Consistent(t) && Lists(namespaces, t.namespaces) && Lists(streams, t.streams)
    ensures Lists(AllKeys(Documented(namespaces, streams)), t.streams)
  {
    var keys := AllKeys(Documented(namespaces, streams));
    forall i | 0 <= i < |keys|
      ensures keys[i].0 in t.streams && t.streams[keys[i].0] == keys[i].1
    {
      DocumentedKeys(namespaces, streams, keys[i].0, keys[i].1);
      assert keys[i] in keys;
      var j :| 0 <= j < |streams| && streams[j] == keys[i];
    }
    forall key | key in t.streams
      ensures exists i :: 0 <= i < |keys| && keys[i].0 == key
    {
      var j :| 0 <= j < |streams| && streams[j].0 == key;
      var ns := t.namespaceNames[key.ns];
      var k :| 0 <= k < |namespaces| && namespaces[k].0 == ns;
      assert namespaces[k].1 == key.ns;
      DocumentedKeys(namespaces, streams, key, streams[j].1);
      assert streams[j] == (key, streams[j].1);
      var i :| 0 <= i < |keys| && keys[i] == (key, streams[j].1);
    }
  }

  lemma FlipLists<K>(entries: seq<(K, nat)>, forward: map<K, nat>, backward: map<nat, K>)
    requires Lists(entries, forward) && Inverse(forward, backward)
    ensures Lists(Flip(entries), backward)
  {
  }

  lemma {:induction false} MaxIdIs<K>(entries: seq<(K, nat)>)
    ensures forall i :: 0 <= i < |entries| ==> entries[i].1 <= MaxId(entries)
    ensures MaxId(entries) == 0 || exists i :: 0 <= i < |entries| && entries[i].1 == MaxId(entries)
  {
    if entries != [] {
      var init, last := entries[..|entries| - 1], |entries| - 1;
      MaxIdIs(init);
      forall i | 0 <= i < |entries|
        ensures entries[i].1 <= MaxId(entries)
      {
        assert i < last ==> init[i].1 <= MaxId(init);
      }
      if MaxId(entries) != 0 && entries[last].1 != MaxId(entries) {
        var i :| 0 <= i < |init| && init[i].1 == MaxId(init);
        assert entries[i].1 == MaxId(entries);
      }
    }
  }

  lemma CounterRestored<K>(entries: seq<(K, nat)>, forward: map<K, nat>, backward: map<nat, K>, next: nat)
    requires Lists(entries, forward) && Inverse(forward, backward) && Counter(backward, next)
    ensures MaxId(entries) + 1 == next
  {
    MaxIdIs(entries);
    if next > 1 {
      assert next - 1 in backward && backward[next - 1] in forward;
      var i :| 0 <= i < |entries| && entries[i].0 == backward[next - 1];
      assert entries[i].1 == next - 1;
    }
    if MaxId(entries) > 0 {
      var i :| 0 <= i < |entries| && entries[i].1 == MaxId(entries);
      assert forward[entries[i].0] in backward;
    }
  }

  /** Whatever order the maps are iterated in, the document rebuilds all four maps and both counters. */
  lemma DocumentRestores(t: Tables, namespaces: seq<(Name, nat)>, streams: seq<(StreamKey, nat)>)
    requires Consistent(t) && Lists(namespaces, t.namespaces) && Lists(streams, t.streams)
    ensures Built(Documented(namespaces, streams)) == t
  {
    var doc := Documented(namespaces, streams);
    var keys := AllKeys(doc);
    assert NameEntries(doc) == namespaces;
    KeysListed(t, namespaces, streams);
    EntriesRestore(namespaces, t.namespaces);
    FlipLists(namespaces, t.namespaces, t.namespaceNames);
    EntriesRestore(Flip(namespaces), t.namespaceNames);
    CounterRestored(namespaces, t.namespaces, t.namespaceNames, t.nextNs);
    EntriesRestore(keys, t.streams);
    FlipLists(keys, t.streams, t.streamInfo);
    EntriesRestore(Flip(keys), t.streamInfo);
    CounterRestored(keys, t.streams, t.streamInfo, t.nextStream);
  }

  /** Loading the file written from the tables gives the tables back. */
  lemma LoadUndoesSave(t: Tables, namespaces: seq<(Name, nat)>, streams: seq<(StreamKey, nat)>, crc: seq<Byte> -> Word32, utf8: Name -> bool)
    requires Consistent(t) && Lists(namespaces, t.namespaces) && Lists(streams, t.streams)
    requires |namespaces| < 0x1_0000_0000
    requires var doc := Documented(namespaces, streams); forall i :: 0 <= i < |doc| ==> NamespaceFits(doc[i], utf8)
    ensures var r := Parse(File(Documented(namespaces, streams), crc), crc, utf8); r.Some? && Built(r.value) == t
  {
    FileRoundTrip(Documented(namespaces, streams), crc, utf8);
    DocumentRestores(t, namespaces, streams);
  }

  // ── Reading the file ───────────────────────────────────────────────────────

  lemma StreamStep(bs: seq<Byte>, n: nat, utf8: Name -> bool, es: seq<StreamEntry>)
    requires n > 0 && TakeStream(bs, utf8).Got?
    ensures var first := TakeStream(bs, utf8);
            After(es, TakeStreams(bs, n, utf8)) == After(es + [first.value], TakeStreams(first.rest, n - 1, utf8))
  {
    var first := TakeStream(bs, utf8);
    AfterMore(es, first.value, TakeStreams(first.rest, n - 1, utf8));
  }

  method ReadStreams(bs: seq<Byte>, n: nat, utf8: Name -> bool) returns (r: Taken<seq<StreamEntry>, Byte>)
    ensures r == TakeStreams(bs, n, utf8)
  {
    var es: seq<StreamEntry>, rest, i: nat := [], bs, 0;
    AfterNone(TakeStreams(bs, n, utf8));
    while i < n
      invariant i <= n && TakeStreams(bs, n, utf8) == After(es, TakeStreams(rest, n - i, utf8))
    {
      var first := TakeStream(rest, utf8);
      if first.Short? {
        return Short;
      }
      StreamStep(rest, n - i, utf8, es);
      es, rest, i := es + [first.value], first.rest, i + 1;
    }
    assert es + [] == es;
    r := Got(es, rest);
  }

  method ReadNamespace(bs: seq<Byte>, utf8: Name -> bool) returns (r: Taken<Namespace, Byte>)
    ensures r == TakeNamespace(bs, utf8)
  {
    var id := TakeNumber(bs, 4);
    if id.Short? {
      return Short;
    }
    var name := TakeName(id.rest, utf8);
    if name.Short? {
      return Short;
    }
    var count := TakeNumber(name.rest, 4);
    if count.Short? {
      return Short;
    }
    var streams := ReadStreams(count.rest, count.value, utf8);
    if streams.Short? {
      return Short;
    }
    r := Got(Namespace(id.value, name.value, streams.value), streams.rest);
  }

  lemma NamespaceStep(bs: seq<Byte>, n: nat, utf8: Name -> bool, ns: seq<Namespace>)
    requires n > 0 && TakeNamespace(bs, utf8).Got?
    ensures var first := TakeNamespace(bs, utf8);
            After(ns, TakeNamespaces(bs, n, utf8)) == After(ns + [first.value], TakeNamespaces(first.rest, n - 1, utf8))
  {
    var first := TakeNamespace(bs, utf8);
    AfterMore(ns, first.value, TakeNamespaces(first.rest, n - 1, utf8));
  }

  method ReadNamespaces(bs: seq<Byte>, n: nat, utf8: Name -> bool) returns (r: Taken<seq<Namespace>, Byte>)
    ensures r == TakeNamespaces(bs, n, utf8)
  {
    var ns: seq<Namespace>, rest, i: nat := [], bs, 0;
    AfterNone(TakeNamespaces(bs, n, utf8));
    while i < n
      invariant i <= n && TakeNamespaces(bs, n, utf8) == After(ns, TakeNamespaces(rest, n - i, utf8))
    {
      var first := ReadNamespace(rest, utf8);
      if first.Short? {
        return Short;
      }
      NamespaceStep(rest, n - i, utf8, ns);
      ns, rest, i := ns + [first.value], first.rest, i + 1;
    }
    assert ns + [] == ns;
    r := Got(ns, rest);
  }

  /** Reads a snapshot; a file that does not check is reported, not guessed at. */
  method Load(data: seq<Byte>, crc: seq<Byte> -> Word32, utf8: Name -> bool) returns (t: Option<Tables>)
    ensures t.Some? <==> Parse(data, crc, utf8).Some?
    ensures t.Some? ==> t.value == Built(Parse(data, crc, utf8).value)
  {
    if |data| < 10 || FieldAt(data, |data| - 4, 4) != crc(data[..|data| - 4]) {
      return None;
    }
    if FieldAt(data, 0, 4) != MAGIC || FieldAt(data, 4, 2) != VERSION {
      return None;
    }
    var doc := ReadNamespaces(Rest(data), FieldAt(data, 6, 4), utf8);
    if doc.Short? {
      return None;
    }
    var built := Build(doc.value);
    t := Some(built);
  }

  /** What two overlapping writes of the same temporary file leave: the shorter one over the longer one. */
  function Overwritten(short: seq<Byte>, long: seq<Byte>): (data: seq<Byte>)
    requires |short| <= |long|
  {
    short + long[|short|..]
  }

  /** Such a file is accepted only if the mixture has the checksum of the longer snapshot. */
  lemma MixedNeedsCollision(doc: seq<Namespace>, short: seq<Byte>, crc: seq<Byte> -> Word32, utf8: Name -> bool)
    requires |short| <= |Body(doc)|
    requires Parse(Overwritten(short, File(doc, crc)), crc, utf8).Some?
    ensures crc(Overwritten(short, Body(doc))) == crc(Body(doc))
  {
    OverwrittenBody(short, Body(doc), Le(crc(Body(doc)), 4));
    Checked(Overwritten(short, Body(doc)), crc(Body(doc)), crc);
  }

  lemma OverwrittenBody(short: seq<Byte>, body: seq<Byte>, sum: seq<Byte>)
    requires |short| <= |body|
    ensures Overwritten(short, body + sum) == Overwritten(short, body) + sum
  {
  }

  lemma Checked(body: seq<Byte>, sum: Word32, crc: seq<Byte> -> Word32)
    requires HeaderOk(body + Le(sum, 4), crc)
    ensures crc(body) == sum
  {
    Widths();
    var data := body + Le(sum, 4);
    assert data[..|body|] == body && body + Le(sum, 4) + [] == data;
    FieldAfter(body, sum, 4, []);
  }
}
