/** The on-disk record: length, id, timestamp, content length, content, chain hash, checksum. */
module RecordFormat {
  import opened Bytes
  import opened Wrappers

  const MIN_RECORD_SIZE: nat := 60
  const HASH_SIZE: nat := 32

  datatype Record = Record(id: nat, timestamp: nat, content: seq<Byte>, hash: seq<Byte>)

  predicate Storable(r: Record)
  {
    && r.id < Pow256(8)
    && r.timestamp < Pow256(8)
    && MIN_RECORD_SIZE + |r.content| < Pow256(4)
    && |r.hash| == HASH_SIZE
  }

  function RecordSize(r: Record): (n: nat)
  {
    MIN_RECORD_SIZE + |r.content|
  }

  function Fields(r: Record): (bs: seq<Byte>)
  {
    Le(r.id, 8) + (Le(r.timestamp, 8) + (Le(|r.content|, 4) + (r.content + r.hash)))
  }

  /** The checksum is taken with the length field blank. */
  function Checksum(fields: seq<Byte>, crc: seq<Byte> -> Word32): (sum: Word32)
  {
    crc(Le(0, 4) + fields)
  }

  function Serialize(r: Record, crc: seq<Byte> -> Word32): (bs: seq<Byte>)
    ensures |r.hash| == HASH_SIZE ==> |bs| == RecordSize(r)
  {
    Le(RecordSize(r), 4) + (Fields(r) + Le(Checksum(Fields(r), crc), 4))
  }

  function Deserialize(buf: seq<Byte>, crc: seq<Byte> -> Word32): (r: Option<Record>)
  {
    if |buf| < MIN_RECORD_SIZE then None else
    var total := FieldAt(buf, 0, 4);
    if total < MIN_RECORD_SIZE || total > |buf| then None else
    var contentLen := FieldAt(buf, 20, 4);
    if total != MIN_RECORD_SIZE + contentLen then None else
    var hashStart := 24 + contentLen;
    var crcStart := hashStart + HASH_SIZE;
    if FieldAt(buf, crcStart, 4) != Checksum(buf[4..crcStart], crc) then None else
    Some(Record(FieldAt(buf, 4, 8), FieldAt(buf, 12, 8), buf[24..hashStart], buf[hashStart..crcStart]))
  }

  lemma LengthField(r: Record, crc: seq<Byte> -> Word32, rest: seq<Byte>)
    requires Storable(r)
    ensures FieldAt(Serialize(r, crc) + rest, 0, 4) == RecordSize(r)
  {
    var tail := Fields(r) + Le(Checksum(Fields(r), crc), 4) + rest;
    assert Serialize(r, crc) + rest == [] + Le(RecordSize(r), 4) + tail;
    FieldAfter([], RecordSize(r), 4, tail);
  }

  /** Three fields after a four-byte prefix are read back at offsets 4, 12 and 20. */
  lemma ThreeFields(len: seq<Byte>, x: nat, y: nat, z: nat, tail: seq<Byte>)
    requires |len| == 4 && x < Pow256(8) && y < Pow256(8) && z < Pow256(4)
    ensures var buf := len + (Le(x, 8) + (Le(y, 8) + (Le(z, 4) + tail)));
            FieldAt(buf, 4, 8) == x && FieldAt(buf, 12, 8) == y && FieldAt(buf, 20, 4) == z
  {
    Cuts(len, Le(x, 8), Le(y, 8), Le(z, 4), tail);
    LeRoundTrip(x, 8);
    LeRoundTrip(y, 8);
    LeRoundTrip(z, 4);
  }

  lemma Cuts(len: seq<Byte>, a: seq<Byte>, b: seq<Byte>, c: seq<Byte>, tail: seq<Byte>)
    requires |len| == 4 && |a| == 8 && |b| == 8 && |c| == 4
    ensures var buf := len + (a + (b + (c + tail)));
            buf[4..4 + 8] == a && buf[12..12 + 8] == b && buf[20..20 + 4] == c
  {
  }

  lemma Regrouped(a: seq<Byte>, b: seq<Byte>, c: seq<Byte>, d: seq<Byte>, e: seq<Byte>)
    ensures (a + (b + (c + d))) + e == a + (b + (c + (d + e)))
  {
  }

  lemma FixedFields(r: Record, crc: seq<Byte> -> Word32)
    requires Storable(r)
    ensures var buf := Serialize(r, crc);
            FieldAt(buf, 4, 8) == r.id && FieldAt(buf, 12, 8) == r.timestamp && FieldAt(buf, 20, 4) == |r.content|
  {
    var body, sum := r.content + r.hash, Le(Checksum(Fields(r), crc), 4);
    Regrouped(Le(r.id, 8), Le(r.timestamp, 8), Le(|r.content|, 4), body, sum);
    ThreeFields(Le(RecordSize(r), 4), r.id, r.timestamp, |r.content|, body + sum);
  }

  lemma VariableFields(r: Record, crc: seq<Byte> -> Word32)
    requires Storable(r)
    ensures var buf := Serialize(r, crc);
            var hashStart := 24 + |r.content|;
            var crcStart := hashStart + HASH_SIZE;
            && buf[24..hashStart] == r.content && buf[hashStart..crcStart] == r.hash
            && buf[4..crcStart] == Fields(r)
            && FieldAt(buf, crcStart, 4) == Checksum(Fields(r), crc)
  {
    Widths();
    var buf := Serialize(r, crc);
    var sum := Checksum(Fields(r), crc);
    var head := Le(RecordSize(r), 4) + Fields(r);
    assert buf == head + Le(sum, 4) + [];
    FieldAfter(head, sum, 4, []);
  }

  /** Reading back a written record gives the record. */
  lemma RecordRoundTrip(r: Record, crc: seq<Byte> -> Word32)
    requires Storable(r)
    ensures Deserialize(Serialize(r, crc), crc) == Some(r)
  {
    assert Serialize(r, crc) + [] == Serialize(r, crc);
    LengthField(r, crc, []);
    FixedFields(r, crc);
    VariableFields(r, crc);
  }
}
