/** Reading values off the front of a sequence, and lists of map entries. */
module Reading {
  datatype Taken<T, W> = Got(value: T, rest: seq<W>) | Short

  lemma Assoc<T>(a: seq<T>, b: seq<T>, c: seq<T>)
    ensures (a + b) + c == a + (b + c)
  {
  }

  /** The values read so far, followed by those still to read. */
  function After<T, W>(xs: seq<T>, r: Taken<seq<T>, W>): (r': Taken<seq<T>, W>)
  {
    if r.Short? then Short else Got(xs + r.value, r.rest)
  }

  lemma AfterNone<T, W>(r: Taken<seq<T>, W>)
    ensures After([], r) == r
  {
    if r.Got? {
      assert [] + r.value == r.value;
    }
  }

  lemma AfterMore<T, W>(xs: seq<T>, x: T, r: Taken<seq<T>, W>)
    ensures r.Got? ==> After(xs + [x], r) == After(xs, Got([x] + r.value, r.rest))
  {
    if r.Got? {
      Assoc(xs, [x], r.value);
    }
  }

  /** Inserts the entries in order. */
  function FromEntries<K, V>(entries: seq<(K, V)>): (m: map<K, V>)
  {
    if entries == [] then map[]
    else
      var last := entries[|entries| - 1];
      FromEntries(entries[..|entries| - 1])[last.0 := last.1]
  }

  /** The entries are those of the map, in some order. */
  ghost predicate Lists<K, V>(entries: seq<(K, V)>, m: map<K, V>)
  {
    && (forall i :: 0 <= i < |entries| ==> entries[i].0 in m && m[entries[i].0] == entries[i].1)
    && (forall k :: k in m ==> exists i :: 0 <= i < |entries| && entries[i].0 == k)
  }

  lemma {:induction false} EntriesHave<K, V>(entries: seq<(K, V)>, m: map<K, V>)
    requires forall i :: 0 <= i < |entries| ==> entries[i].0 in m && m[entries[i].0] == entries[i].1
    ensures forall i :: 0 <= i < |entries| ==> entries[i].0 in FromEntries(entries)
    ensures forall k :: k in FromEntries(entries) ==> k in m && FromEntries(entries)[k] == m[k]
  {
    if entries != [] {
      var init := entries[..|entries| - 1];
      EntriesHave(init, m);
      forall i | 0 <= i < |entries|
        ensures entries[i].0 in FromEntries(entries)
      {
        if i < |init| {
          assert init[i].0 in FromEntries(init);
        }
      }
    }
  }

  /** Inserting the entries of a map, in whatever order they come, gives the map. */
  lemma EntriesRestore<K, V>(entries: seq<(K, V)>, m: map<K, V>)
    requires Lists(entries, m)
    ensures FromEntries(entries) == m
  {
    EntriesHave(entries, m);
  }

  lemma OneMoreEntry<K, V>(entries: seq<(K, V)>, k: K, v: V)
    ensures FromEntries(entries + [(k, v)]) == FromEntries(entries)[k := v]
  {
    assert (entries + [(k, v)])[..|entries|] == entries;
  }

  /** The entries with key and value exchanged. */
  function Flip<K, V>(entries: seq<(K, V)>): (flipped: seq<(V, K)>)
    ensures |flipped| == |entries| && forall i :: 0 <= i < |entries| ==> flipped[i] == (entries[i].1, entries[i].0)
  {
    seq(|entries|, i requires 0 <= i < |entries| => (entries[i].1, entries[i].0))
  }
}
