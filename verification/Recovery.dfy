/**
 Recovery of a shard from its last segment (raw records, hash chain off).

 The scan walks the records after the segment header, stops at the first byte sequence that cannot
 be the next record, truncates the file there, and reports the last id from which the shard resumes.
 */
module Recovery {
  import opened Bytes
  import opened RecordIds
  import opened RecordFormat
  import opened Wrappers

  const HEADER_SIZE: nat := 128

  /** Loop variables of the scan. */
  datatype Scan = Scan(offset: nat, lastValid: nat, lastSequence: nat, expected: nat, count: nat)

  datatype Verdict = Torn | Accept(id: nat, size: nat) | Skip(size: nat)

  datatype Warning = TornWrite(atRecordId: nat, atOffset: nat) | CorruptRecord(atRecordId: nat, atOffset: nat)

  function Start(base: nat): (st: Scan)
  {
    Scan(HEADER_SIZE, HEADER_SIZE, if base == 0 then U64_SIZE - 1 else base - 1, base, 0)
  }

  /** What the scan makes of the bytes at its offset. */
  function Classify(file: seq<Byte>, st: Scan, bits: nat, crc: seq<Byte> -> Word32): (v: Verdict)
    requires st.offset < |file|
    ensures v.Accept? ==> v.size >= MIN_RECORD_SIZE && st.offset + v.size <= |file|
    ensures v.Skip? ==> v.size >= MIN_RECORD_SIZE && st.offset + v.size < |file|
  {
    if st.offset + 4 > |file| then Torn else
    var total := FieldAt(file, st.offset, 4);
    if total < MIN_RECORD_SIZE || st.offset + total > |file| then Torn else
    Judge(Deserialize(file[st.offset..st.offset + total], crc), total, st, bits, st.offset + total < |file|)
  }

  /** A record with the wrong id is torn, except the first of a sharded log; bytes that do not decode are skipped unless they end the file. */
  function Judge(decoded: Option<Record>, total: nat, st: Scan, bits: nat, more: bool): (v: Verdict)
    ensures v.Accept? ==> v.size == total
    ensures v.Skip? ==> v.size == total && more
  {
    match decoded
    case Some(r) =>
      if r.id != st.expected && !(st.count == 0 && bits > 0) then Torn else Accept(r.id, total)
    case None =>
      if more then Skip(total) else Torn
  }

  function Apply(st: Scan, v: Verdict, bits: nat): (next: Scan)
    requires !v.Torn?
  {
    match v
    case Accept(id, size) =>
      Scan(st.offset + size, st.offset + size, id, (id + Pow2(bits)) % U64_SIZE, st.count + 1)
    case Skip(size) => st.(offset := st.offset + size)
  }

  /** Where the scan stops. */
  function Final(file: seq<Byte>, st: Scan, bits: nat, crc: seq<Byte> -> Word32): (end: Scan)
    ensures st.lastValid <= |file| ==> end.lastValid <= |file|
    decreases |file| - st.offset
  {
    if st.offset >= |file| then
      st
    else
      var v := Classify(file, st, bits, crc);
      if v.Torn? then st else Final(file, Apply(st, v, bits), bits, crc)
  }

  class SegmentFile {
    var bytes: seq<Byte>

    /** Scans the segment and truncates it after the last valid record. */
    method ScanLastSegment(base: nat, bits: nat, crc: seq<Byte> -> Word32)
      returns (lastSequence: nat, activeOffset: nat, warnings: seq<Warning>, count: nat)
      requires |bytes| >= HEADER_SIZE
      modifies this
      ensures activeOffset <= |old(bytes)| && bytes == old(bytes)[..activeOffset]
      ensures (exists w :: w in warnings && w.TornWrite?) <==> activeOffset < |old(bytes)|
      ensures var end := Final(old(bytes), Start(base), bits, crc);
              lastSequence == end.lastSequence && activeOffset == end.lastValid && count == end.count
    {
      var st := Start(base);
      ghost var file := bytes;
      warnings := [];
      while st.offset < |bytes|
        invariant bytes == file
        invariant st.lastValid <= st.offset <= |file|
        invariant st.offset == |file| ==> st.lastValid == st.offset
        invariant Final(file, st, bits, crc) == Final(file, Start(base), bits, crc)
        invariant forall w :: w in warnings ==> w.CorruptRecord?
        decreases |file| - st.offset
      {
        var v := Classify(bytes, st, bits, crc);
        if v.Torn? {
          bytes := bytes[..st.lastValid];
          warnings := warnings + [TornWrite(st.expected, st.offset)];
          assert warnings[|warnings| - 1].TornWrite?;
          return st.lastSequence, st.lastValid, warnings, st.count;
        }
        if v.Skip? {
          warnings := warnings + [CorruptRecord(st.expected, st.offset)];
        }
        st := Apply(st, v, bits);
      }
      assert file[..|file|] == file;
      return st.lastSequence, st.lastValid, warnings, st.count;
    }
  }

  // ── Recovering twice ───────────────────────────────────────────────────────

  ghost predicate Reachable(file: seq<Byte>, st: Scan)
  {
    st.lastValid <= st.offset <= |file|
  }

  /** The valid end only grows, and whatever grows it lies wholly past the current offset. */
  lemma {:induction false} FinalGrows(file: seq<Byte>, st: Scan, bits: nat, crc: seq<Byte> -> Word32)
    requires Reachable(file, st)
    ensures var end := Final(file, st, bits, crc);
            && st.lastValid <= end.lastValid <= |file|
            && (end.lastValid == st.lastValid ==> end.lastSequence == st.lastSequence && end.count == st.count)
            && (end.lastValid != st.lastValid ==> st.offset < end.lastValid)
    decreases |file| - st.offset
  {
    if st.offset < |file| {
      var v := Classify(file, st, bits, crc);
      if !v.Torn? {
        FinalGrows(file, Apply(st, v, bits), bits, crc);
      }
    }
  }

  /** A record that ends at or before the cut looks the same in the cut file. */
  lemma ClassifyPrefix(file: seq<Byte>, cut: nat, st: Scan, bits: nat, crc: seq<Byte> -> Word32)
    requires st.offset < cut <= |file|
    requires var v := Classify(file, st, bits, crc);
             !v.Torn? && st.offset + v.size <= cut && (v.Skip? ==> st.offset + v.size < cut)
    ensures Classify(file[..cut], st, bits, crc) == Classify(file, st, bits, crc)
  {
    SliceBeforeCut(file, cut, st.offset, 4);
    SliceBeforeCut(file, cut, st.offset, FieldAt(file, st.offset, 4));
  }

  lemma SliceBeforeCut(file: seq<Byte>, cut: nat, offset: nat, n: nat)
    requires offset + n <= cut <= |file|
    ensures file[..cut][offset..offset + n] == file[offset..offset + n]
  {
  }

  /** Scanning the truncated file stops at its end with the same answers. */
  lemma {:induction false} FinalOfTruncated(file: seq<Byte>, st: Scan, bits: nat, crc: seq<Byte> -> Word32)
    requires Reachable(file, st)
    requires Final(file, st, bits, crc).lastValid != st.lastValid
    ensures var end := Final(file, st, bits, crc);
            var again := Final(file[..end.lastValid], st, bits, crc);
            again.lastSequence == end.lastSequence && again.lastValid == end.lastValid && again.count == end.count
    decreases |file| - st.offset
  {
    var end := Final(file, st, bits, crc);
    FinalGrows(file, st, bits, crc);
    var v := Classify(file, st, bits, crc);
    var next := Apply(st, v, bits);
    FinalGrows(file, next, bits, crc);
    ClassifyPrefix(file, end.lastValid, st, bits, crc);
    if end.lastValid != next.lastValid {
      FinalOfTruncated(file, next, bits, crc);
    }
  }

  /** A second recovery truncates nothing and reports the same offset, last id and count. */
  lemma RecoveryIdempotent(file: seq<Byte>, base: nat, bits: nat, crc: seq<Byte> -> Word32)
    requires |file| >= HEADER_SIZE
    ensures var end := Final(file, Start(base), bits, crc);
            var again := Final(file[..end.lastValid], Start(base), bits, crc);
            && HEADER_SIZE <= end.lastValid <= |file|
            && again.lastValid == end.lastValid == |file[..end.lastValid]|
            && again.lastSequence == end.lastSequence && again.count == end.count
  {
    FinalGrows(file, Start(base), bits, crc);
    var end := Final(file, Start(base), bits, crc);
    if end.lastValid != HEADER_SIZE {
      FinalOfTruncated(file, Start(base), bits, crc);
    }
  }

  // ── Cutting a well-formed segment ──────────────────────────────────────────

  function Body(rs: seq<Record>, crc: seq<Byte> -> Word32): (bs: seq<Byte>)
  {
    if rs == [] then [] else Body(rs[..|rs| - 1], crc) + Serialize(rs[|rs| - 1], crc)
  }

  /** Records as a shard writes them: storable, ids one stride apart, starting at the segment's base. */
  predicate WellFormed(rs: seq<Record>, base: nat, bits: nat)
  {
    && (forall i :: 0 <= i < |rs| ==> Storable(rs[i]))
    && (forall i :: 0 < i < |rs| ==> rs[i].id == rs[i - 1].id + Pow2(bits))
    && (bits == 0 && rs != [] ==> rs[0].id == base)
  }

  /** Scan variables after accepting `rs`. */
  function After(rs: seq<Record>, base: nat, bits: nat, crc: seq<Byte> -> Word32): (st: Scan)
  {
    if rs == [] then
      Start(base)
    else
      var last, end := rs[|rs| - 1].id, HEADER_SIZE + |Body(rs, crc)|;
      Scan(end, end, last, (last + Pow2(bits)) % U64_SIZE, |rs|)
  }

  lemma WellFormedInit(rs: seq<Record>, base: nat, bits: nat)
    requires WellFormed(rs, base, bits) && rs != []
    ensures WellFormed(rs[..|rs| - 1], base, bits)
  {
  }

  lemma ClassifyRecord(file: seq<Byte>, st: Scan, bits: nat, crc: seq<Byte> -> Word32, total: nat, r: Record)
    requires st.offset + total <= |file| && total >= MIN_RECORD_SIZE
    requires FieldAt(file, st.offset, 4) == total
    requires Deserialize(file[st.offset..st.offset + total], crc) == Some(r)
    requires r.id == st.expected || (st.count == 0 && bits > 0)
    ensures Classify(file, st, bits, crc) == Accept(r.id, total)
  {
  }

  lemma SliceIn(before: seq<Byte>, bytes: seq<Byte>, tail: seq<Byte>)
    requires |bytes| >= 4
    ensures var file := before + (bytes + tail);
            && file[|before|..|before| + |bytes|] == bytes
            && FieldAt(file, |before|, 4) == FieldAt(bytes + tail, 0, 4)
  {
    var file := before + (bytes + tail);
    assert file[|before|..|before| + 4] == (bytes + tail)[0..4];
  }

  /** A written record with the expected id is accepted, whatever surrounds it. */
  lemma AcceptAt(before: seq<Byte>, r: Record, tail: seq<Byte>, st: Scan, bits: nat, crc: seq<Byte> -> Word32)
    requires Storable(r) && st.offset == |before|
    requires r.id == st.expected || (st.count == 0 && bits > 0)
    ensures Classify(before + (Serialize(r, crc) + tail), st, bits, crc) == Accept(r.id, RecordSize(r))
  {
    LengthField(r, crc, tail);
    RecordRoundTrip(r, crc);
    SliceIn(before, Serialize(r, crc), tail);
    ClassifyRecord(before + (Serialize(r, crc) + tail), st, bits, crc, RecordSize(r), r);
  }

  lemma ExpectedId(rs: seq<Record>, base: nat, bits: nat, crc: seq<Byte> -> Word32)
    requires rs != [] && WellFormed(rs, base, bits)
    ensures var st := After(rs[..|rs| - 1], base, bits, crc);
            rs[|rs| - 1].id == st.expected || (st.count == 0 && bits > 0)
  {
  }

  lemma AfterStep(rs: seq<Record>, base: nat, bits: nat, crc: seq<Byte> -> Word32)
    requires rs != [] && Storable(rs[|rs| - 1])
    ensures Apply(After(rs[..|rs| - 1], base, bits, crc), Accept(rs[|rs| - 1].id, RecordSize(rs[|rs| - 1])), bits)
            == After(rs, base, bits, crc)
  {
    assert |Body(rs, crc)| == |Body(rs[..|rs| - 1], crc)| + RecordSize(rs[|rs| - 1]);
  }

  lemma AfterOffset(rs: seq<Record>, base: nat, bits: nat, crc: seq<Byte> -> Word32)
    ensures After(rs, base, bits, crc).offset == HEADER_SIZE + |Body(rs, crc)|
  {
  }

  /** The next written record takes the scan to the next state. */
  lemma NextAccepted(before: seq<Byte>, rs: seq<Record>, base: nat, bits: nat, crc: seq<Byte> -> Word32, tail: seq<Byte>)
    requires rs != [] && WellFormed(rs, base, bits)
    requires |before| == HEADER_SIZE + |Body(rs[..|rs| - 1], crc)|
    ensures var file := before + (Serialize(rs[|rs| - 1], crc) + tail);
            Final(file, After(rs[..|rs| - 1], base, bits, crc), bits, crc) == Final(file, After(rs, base, bits, crc), bits, crc)
  {
    var r := rs[|rs| - 1];
    var st := After(rs[..|rs| - 1], base, bits, crc);
    AfterOffset(rs[..|rs| - 1], base, bits, crc);
    ExpectedId(rs, base, bits, crc);
    AcceptAt(before, r, tail, st, bits, crc);
    AfterStep(rs, base, bits, crc);
    FinalStep(before + (Serialize(r, crc) + tail), st, After(rs, base, bits, crc), bits, crc);
  }

  lemma FinalStep(file: seq<Byte>, st: Scan, next: Scan, bits: nat, crc: seq<Byte> -> Word32)
    requires st.offset < |file|
    requires !Classify(file, st, bits, crc).Torn? && next == Apply(st, Classify(file, st, bits, crc), bits)
    ensures Final(file, st, bits, crc) == Final(file, next, bits, crc)
  {
  }

  lemma Regroup(a: seq<Byte>, b: seq<Byte>, c: seq<Byte>, d: seq<Byte>)
    ensures a + (b + c) + d == a + b + (c + d)
    ensures a + (b + c) + d == a + (b + (c + d))
  {
  }

  /** Whatever follows them, the records of a well-formed segment are all accepted first. */
  lemma {:induction false} PrefixSurvives(header: seq<Byte>, rs: seq<Record>, base: nat, bits: nat, crc: seq<Byte> -> Word32, tail: seq<Byte>)
    requires |header| == HEADER_SIZE && WellFormed(rs, base, bits)
    ensures var file := header + Body(rs, crc) + tail;
            Final(file, Start(base), bits, crc) == Final(file, After(rs, base, bits, crc), bits, crc)
  {
    if rs != [] {
      var init, r := rs[..|rs| - 1], rs[|rs| - 1];
      WellFormedInit(rs, base, bits);
      Regroup(header, Body(init, crc), Serialize(r, crc), tail);
      PrefixSurvives(header, init, base, bits, crc, Serialize(r, crc) + tail);
      NextAccepted(header + Body(init, crc), rs, base, bits, crc, tail);
    }
  }

  /** Nothing written before a torn or garbled tail is given up. */
  lemma GarbageTailKeepsRecords(header: seq<Byte>, rs: seq<Record>, base: nat, bits: nat, crc: seq<Byte> -> Word32, tail: seq<Byte>)
    requires |header| == HEADER_SIZE && WellFormed(rs, base, bits)
    ensures var file := header + Body(rs, crc) + tail;
            var end := Final(file, Start(base), bits, crc);
            && HEADER_SIZE + |Body(rs, crc)| <= end.lastValid <= |file|
            && file[..HEADER_SIZE + |Body(rs, crc)|] == header + Body(rs, crc)
  {
    var file := header + Body(rs, crc) + tail;
    PrefixSurvives(header, rs, base, bits, crc, tail);
    FinalGrows(file, After(rs, base, bits, crc), bits, crc);
  }

  /** A proper piece of the next record is a torn write. */
  lemma PartialIsTorn(file: seq<Byte>, st: Scan, r: Record, piece: seq<Byte>, bits: nat, crc: seq<Byte> -> Word32)
    requires Storable(r) && piece <= Serialize(r, crc) && 0 < |piece| < RecordSize(r)
    requires st.offset + |piece| == |file| && file[st.offset..] == piece
    ensures Classify(file, st, bits, crc) == Torn
  {
    if |piece| >= 4 {
      assert file[st.offset..st.offset + 4] == piece[0..4] == Serialize(r, crc)[0..4];
      assert Serialize(r, crc) + [] == Serialize(r, crc);
      LengthField(r, crc, []);
    }
  }

  /**
   A segment cut at any byte recovers exactly the records wholly before the cut: `rs` are those,
   and `piece` is what is left of the next one, if any.
   */
  lemma CutRecoversExactly(header: seq<Byte>, rs: seq<Record>, next: Record, piece: seq<Byte>, base: nat, bits: nat, crc: seq<Byte> -> Word32)
    requires |header| == HEADER_SIZE && WellFormed(rs, base, bits)
    requires Storable(next) && piece <= Serialize(next, crc) && |piece| < RecordSize(next)
    ensures Final(header + Body(rs, crc) + piece, Start(base), bits, crc) == After(rs, base, bits, crc)
  {
    var file := header + Body(rs, crc) + piece;
    var st := After(rs, base, bits, crc);
    PrefixSurvives(header, rs, base, bits, crc, piece);
    if piece != [] {
      assert file[st.offset..] == piece;
      PartialIsTorn(file, st, next, piece, bits, crc);
    }
  }

  /** Every cut past the header has that shape. */
  lemma {:induction false} CutShape(rs: seq<Record>, cut: nat, crc: seq<Byte> -> Word32) returns (k: nat)
    requires forall i :: 0 <= i < |rs| ==> Storable(rs[i])
    requires cut <= |Body(rs, crc)|
    ensures k <= |rs| && |Body(rs[..k], crc)| <= cut
    ensures Body(rs[..k], crc) <= Body(rs, crc)[..cut]
    ensures k == |rs| ==> cut == |Body(rs, crc)|
    ensures k < |rs| ==> cut < |Body(rs[..k], crc)| + RecordSize(rs[k]) && Body(rs, crc)[..cut][|Body(rs[..k], crc)|..] <= Serialize(rs[k], crc)
  {
    if cut == |Body(rs, crc)| {
      assert rs[..|rs|] == rs;
      return |rs|;
    }
    var last := |rs| - 1;
    var init, bytes := rs[..last], Serialize(rs[last], crc);
    if cut < |Body(init, crc)| {
      k := CutShape(init, cut, crc);
      assert init[..k] == rs[..k];
      assert Body(rs, crc)[..cut] == Body(init, crc)[..cut];
    } else {
      k := last;
      assert Body(rs, crc)[..cut] == Body(init, crc) + bytes[..cut - |Body(init, crc)|];
    }
  }

  /** Cutting a well-formed segment anywhere past its header recovers the longest run of whole records. */
  lemma CutAnywhere(header: seq<Byte>, rs: seq<Record>, cut: nat, base: nat, bits: nat, crc: seq<Byte> -> Word32) returns (k: nat)
    requires |header| == HEADER_SIZE && WellFormed(rs, base, bits)
    requires cut <= |Body(rs, crc)|
    ensures k <= |rs| && |Body(rs[..k], crc)| <= cut
    ensures k < |rs| ==> cut < |Body(rs[..k], crc)| + RecordSize(rs[k])
    ensures Final(header + Body(rs, crc)[..cut], Start(base), bits, crc) == After(rs[..k], base, bits, crc)
  {
    k := CutShape(rs, cut, crc);
    WellFormedPrefix(rs, k, base, bits);
    var piece := Body(rs, crc)[..cut][|Body(rs[..k], crc)|..];
    assert header + Body(rs, crc)[..cut] == header + Body(rs[..k], crc) + piece;
    if k < |rs| {
      CutRecoversExactly(header, rs[..k], rs[k], piece, base, bits, crc);
    } else {
      assert rs[..k] == rs;
      PrefixSurvives(header, rs, base, bits, crc, []);
    }
  }

  lemma WellFormedPrefix(rs: seq<Record>, k: nat, base: nat, bits: nat)
    requires WellFormed(rs, base, bits) && k <= |rs|
    ensures WellFormed(rs[..k], base, bits)
  {
  }

  // ── Records out of sequence ────────────────────────────────────────────────

  lemma TornOnWrongId(file: seq<Byte>, st: Scan, bits: nat, crc: seq<Byte> -> Word32, total: nat, r: Record)
    requires st.offset + total <= |file| && total >= MIN_RECORD_SIZE
    requires FieldAt(file, st.offset, 4) == total
    requires Deserialize(file[st.offset..st.offset + total], crc) == Some(r)
    requires r.id != st.expected && (st.count > 0 || bits == 0)
    ensures Classify(file, st, bits, crc) == Torn
  {
  }

  /** A sound record with the wrong id ends the segment: it and everything after it is cut off, whatever it is. */
  lemma WrongIdEndsScan(header: seq<Byte>, rs: seq<Record>, r: Record, tail: seq<Byte>, base: nat, bits: nat, crc: seq<Byte> -> Word32)
    requires |header| == HEADER_SIZE && WellFormed(rs, base, bits) && Storable(r)
    requires r.id != After(rs, base, bits, crc).expected && (rs != [] || bits == 0)
    ensures Final(header + Body(rs, crc) + (Serialize(r, crc) + tail), Start(base), bits, crc) == After(rs, base, bits, crc)
  {
    var before := header + Body(rs, crc);
    PrefixSurvives(header, rs, base, bits, crc, Serialize(r, crc) + tail);
    AfterOffset(rs, base, bits, crc);
    WrongIdTorn(before, r, tail, After(rs, base, bits, crc), bits, crc);
    EndsTorn(before + (Serialize(r, crc) + tail), After(rs, base, bits, crc), bits, crc);
  }

  lemma WrongIdTorn(before: seq<Byte>, r: Record, tail: seq<Byte>, st: Scan, bits: nat, crc: seq<Byte> -> Word32)
    requires Storable(r) && st.offset == |before| && r.id != st.expected && (st.count > 0 || bits == 0)
    ensures st.offset < |before + (Serialize(r, crc) + tail)|
    ensures Classify(before + (Serialize(r, crc) + tail), st, bits, crc) == Torn
  {
    LengthField(r, crc, tail);
    RecordRoundTrip(r, crc);
    SliceIn(before, Serialize(r, crc), tail);
    TornOnWrongId(before + (Serialize(r, crc) + tail), st, bits, crc, RecordSize(r), r);
  }

  lemma EndsTorn(file: seq<Byte>, st: Scan, bits: nat, crc: seq<Byte> -> Word32)
    requires st.offset < |file| && Classify(file, st, bits, crc) == Torn
    ensures Final(file, st, bits, crc) == st
  {
  }

  /** Records written with reused ids into a prepared segment are discarded by the next recovery of an unsharded log. */
  lemma ReusedIdsDiscarded(header: seq<Byte>, r: Record, tail: seq<Byte>, base: nat, crc: seq<Byte> -> Word32)
    requires |header| == HEADER_SIZE && Storable(r) && r.id != base
    ensures Final(header + (Serialize(r, crc) + tail), Start(base), 0, crc) == Start(base)
  {
    WrongIdEndsScan(header, [], r, tail, base, 0, crc);
    assert header + Body([], crc) == header;
  }

  lemma InitPrefix<T>(s: seq<T>, k: nat)
    requires k < |s| - 1
    ensures s[..|s| - 1][..k] == s[..k] && s[..|s| - 1][k] == s[k]
  {
  }

  lemma {:induction false} BodySplit(rs: seq<Record>, k: nat, crc: seq<Byte> -> Word32) returns (tail: seq<Byte>)
    requires k < |rs|
    ensures Body(rs, crc) == Body(rs[..k], crc) + (Serialize(rs[k], crc) + tail)
  {
    var last := |rs| - 1;
    if k == last {
      tail := [];
      assert Serialize(rs[k], crc) + tail == Serialize(rs[k], crc);
    } else {
      var more := BodySplit(rs[..last], k, crc);
      InitPrefix(rs, k);
      tail := more + Serialize(rs[last], crc);
      Regroup(Body(rs[..k], crc), Serialize(rs[k], crc), more, Serialize(rs[last], crc));
    }
  }

  /** Whatever a segment holds, the scan keeps exactly the leading records that are in sequence. */
  lemma ScanKeepsRun(header: seq<Byte>, rs: seq<Record>, k: nat, base: nat, bits: nat, crc: seq<Byte> -> Word32)
    requires |header| == HEADER_SIZE && k <= |rs| && WellFormed(rs[..k], base, bits)
    requires k < |rs| ==> Storable(rs[k]) && rs[k].id != After(rs[..k], base, bits, crc).expected && (k > 0 || bits == 0)
    ensures Final(header + Body(rs, crc), Start(base), bits, crc) == After(rs[..k], base, bits, crc)
  {
    if k == |rs| {
      assert rs[..k] == rs && header + Body(rs, crc) + [] == header + Body(rs, crc);
      PrefixSurvives(header, rs, base, bits, crc, []);
    } else {
      var tail := BodySplit(rs, k, crc);
      WrongIdEndsScan(header, rs[..k], rs[k], tail, base, bits, crc);
      Glue(header, Body(rs[..k], crc), Serialize(rs[k], crc) + tail);
    }
  }

  lemma Glue(a: seq<Byte>, b: seq<Byte>, c: seq<Byte>)
    ensures a + (b + c) == a + b + c
  {
  }

  // ── Where the shard resumes ────────────────────────────────────────────────

  /** Next local sequence to hand out after a recovery that ended in `end`. */
  function ResumeLocal(end: Scan, bits: nat): (local: nat)
  {
    if end.count == 0 then 0 else Decode(end.lastSequence, bits).1 + 1
  }

  /** What a shard directory holds, oldest segment first; `hasFirst` says whether the segment numbered 1 is among them. */
  datatype Files = Files(hasFirst: bool, segs: seq<seq<Record>>)

  function LastOf(files: Files): (rs: seq<Record>)
  {
    if files.segs == [] then [] else files.segs[|files.segs| - 1]
  }

  /**
   Opening a shard: only a directory with the segment numbered 1 is recovered, by a scan of its last
   segment, whose header names `base` as first record; any other is taken as new.
   */
  function OpenLocal(files: Files, header: seq<Byte>, base: nat, bits: nat, crc: seq<Byte> -> Word32): (local: nat)
  {
    if files.hasFirst then ResumeLocal(Final(header + Body(LastOf(files), crc), Start(base), bits, crc), bits) else 0
  }

  /** The header names the first record; with several shards it is not compared. */
  predicate Based(rs: seq<Record>, base: nat, bits: nat)
  {
    bits == 0 && rs != [] ==> base == rs[0].id
  }

  function Local(r: Record, bits: nat): (l: nat)
  {
    Decode(r.id, bits).1
  }

  /** The records of the last segment follow each other. */
  ghost predicate LastSound(files: Files, bits: nat)
  {
    LastOf(files) != [] ==> WellFormed(LastOf(files), LastOf(files)[0].id, bits)
  }

  /** Segment 1 is there, and the last segment has a record and a header that names its first. */
  ghost predicate Found(files: Files, base: nat, bits: nat)
  {
    files.hasFirst && LastOf(files) != [] && Based(LastOf(files), base, bits)
  }

  lemma OpenLocalIs(files: Files, header: seq<Byte>, base: nat, bits: nat, crc: seq<Byte> -> Word32)
    requires |header| == HEADER_SIZE && LastSound(files, bits)
    ensures OpenLocal(files, header, base, bits, crc) ==
            if Found(files, base, bits) then Local(LastOf(files)[|LastOf(files)| - 1], bits) + 1 else 0
  {
    var rs := LastOf(files);
    if Based(rs, base, bits) {
      assert rs[..|rs|] == rs;
      ScanKeepsRun(header, rs, |rs|, base, bits, crc);
    } else {
      assert rs[..0] == [];
      ScanKeepsRun(header, rs, 0, base, bits, crc);
    }
  }

  ghost function Flatten(segs: seq<seq<Record>>): (rs: seq<Record>)
  {
    if segs == [] then [] else Flatten(segs[..|segs| - 1]) + segs[|segs| - 1]
  }

  ghost predicate OfShard(rs: seq<Record>, shard: nat, bits: nat)
  {
    shard < Pow2(bits) && forall i :: 0 <= i < |rs| ==> Decode(rs[i].id, bits).0 == shard
  }

  /** Some sequence handed out from `local` on names a record that is still there. */
  ghost predicate Reuses(segs: seq<seq<Record>>, shard: nat, local: nat, bits: nat)
    requires shard < Pow2(bits)
  {
    exists i, l :: 0 <= i < |Flatten(segs)| && local <= l && GlobalId(shard, l, bits) == Flatten(segs)[i].id
  }

  /** A record at or beyond `local`. */
  ghost predicate Beyond(rs: seq<Record>, local: nat, bits: nat)
  {
    exists i :: 0 <= i < |rs| && Local(rs[i], bits) >= local
  }

  lemma ReusesBeyond(segs: seq<seq<Record>>, shard: nat, local: nat, bits: nat)
    requires OfShard(Flatten(segs), shard, bits)
    ensures Reuses(segs, shard, local, bits) <==> Beyond(Flatten(segs), local, bits)
  {
    var all := Flatten(segs);
    if i, l :| 0 <= i < |all| && local <= l && GlobalId(shard, l, bits) == all[i].id {
      DecodeGlobalId(shard, l, bits);
      assert Local(all[i], bits) >= local;
    }
    if i :| 0 <= i < |all| && Local(all[i], bits) >= local {
      GlobalIdDecode(all[i].id, bits);
      assert GlobalId(shard, Local(all[i], bits), bits) == all[i].id;
    }
  }

  /**
   For any directory of a shard whose last segment is in sequence: ids are reused after opening exactly
   when records are there and segment 1 is not, or the last segment is empty, or its header names
   another first record, or some record is beyond its newest.
   */
  lemma AnyReuseIff(files: Files, header: seq<Byte>, shard: nat, base: nat, bits: nat, crc: seq<Byte> -> Word32)
    requires |header| == HEADER_SIZE && LastSound(files, bits) && OfShard(Flatten(files.segs), shard, bits)
    ensures Reuses(files.segs, shard, OpenLocal(files, header, base, bits, crc), bits) <==>
            && Flatten(files.segs) != []
            && (Found(files, base, bits) ==> Beyond(Flatten(files.segs), Local(LastOf(files)[|LastOf(files)| - 1], bits) + 1, bits))
  {
    var all := Flatten(files.segs);
    OpenLocalIs(files, header, base, bits, crc);
    ReusesBeyond(files.segs, shard, OpenLocal(files, header, base, bits, crc), bits);
    if all != [] {
      assert Local(all[0], bits) >= 0;
    }
  }

  /** The segments hold consecutive locals of one shard, from `first` on. */
  ghost predicate ShardLog(segs: seq<seq<Record>>, shard: nat, first: nat, bits: nat)
  {
    && shard < Pow2(bits)
    && forall i :: 0 <= i < |Flatten(segs)| ==> Storable(Flatten(segs)[i]) && Flatten(segs)[i].id == GlobalId(shard, first + i, bits)
  }

  lemma NextId(shard: nat, l: nat, bits: nat)
    requires shard < Pow2(bits)
    ensures GlobalId(shard, l + 1, bits) == GlobalId(shard, l, bits) + Pow2(bits)
  {
    assert (l + 1) * Pow2(bits) == l * Pow2(bits) + Pow2(bits);
  }

  lemma ShardLogLocals(segs: seq<seq<Record>>, shard: nat, first: nat, bits: nat)
    requires ShardLog(segs, shard, first, bits)
    ensures OfShard(Flatten(segs), shard, bits)
    ensures forall i :: 0 <= i < |Flatten(segs)| ==> Local(Flatten(segs)[i], bits) == first + i
  {
    forall i | 0 <= i < |Flatten(segs)|
      ensures Decode(Flatten(segs)[i].id, bits) == (shard, first + i)
    {
      DecodeGlobalId(shard, first + i, bits);
    }
  }

  lemma ShardLogSound(files: Files, shard: nat, first: nat, bits: nat)
    requires ShardLog(files.segs, shard, first, bits)
    ensures LastSound(files, bits)
    ensures LastOf(files) != [] ==>
              Flatten(files.segs) != [] && LastOf(files)[|LastOf(files)| - 1] == Flatten(files.segs)[|Flatten(files.segs)| - 1]
  {
    if files.segs != [] {
      assert Flatten(files.segs) == Flatten(files.segs[..|files.segs| - 1]) + LastOf(files);
      SuffixSound(Flatten(files.segs[..|files.segs| - 1]), LastOf(files), shard, first, bits);
    }
  }

  lemma SuffixSound(before: seq<Record>, last: seq<Record>, shard: nat, first: nat, bits: nat)
    requires shard < Pow2(bits)
    requires var all := before + last;
             forall i :: 0 <= i < |all| ==> Storable(all[i]) && all[i].id == GlobalId(shard, first + i, bits)
    ensures last != [] ==> WellFormed(last, last[0].id, bits)
  {
    var all, n := before + last, |before|;
    forall i | 0 <= i < |last|
      ensures Storable(last[i]) && last[i].id == GlobalId(shard, first + n + i, bits)
    {
      assert all[n + i] == last[i];
    }
    forall i | 0 < i < |last|
      ensures last[i].id == last[i - 1].id + Pow2(bits)
    {
      NextId(shard, first + n + (i - 1), bits);
    }
  }

  /**
   The shard resumes right after its newest record exactly when segment 1 is there and the last
   segment has a record and, without other shards, a header that names its first; or nothing was ever stored.
   */
  lemma ResumesAfterNewestIff(files: Files, header: seq<Byte>, shard: nat, first: nat, base: nat, bits: nat, crc: seq<Byte> -> Word32)
    requires |header| == HEADER_SIZE && ShardLog(files.segs, shard, first, bits)
    ensures OpenLocal(files, header, base, bits, crc) == first + |Flatten(files.segs)| <==>
            || (files.hasFirst && LastOf(files) != [] && (bits > 0 || base == LastOf(files)[0].id))
            || first + |Flatten(files.segs)| == 0
  {
    ShardLogSound(files, shard, first, bits);
    ShardLogLocals(files.segs, shard, first, bits);
    OpenLocalIs(files, header, base, bits, crc);
  }

  /**
   Ids are reused after opening exactly when records are there and the segment numbered 1 is not, as
   after retention or checkpoint truncation; or the last segment has no record, as after a stop
   between the creation of a segment file and its first record; or, without other shards, the header of
   the last segment names another first record, as after batches between its preparation and the roll.
   */
  lemma ReuseIff(files: Files, header: seq<Byte>, shard: nat, first: nat, base: nat, bits: nat, crc: seq<Byte> -> Word32)
    requires |header| == HEADER_SIZE && ShardLog(files.segs, shard, first, bits)
    ensures Reuses(files.segs, shard, OpenLocal(files, header, base, bits, crc), bits) <==>
            && Flatten(files.segs) != []
            && (!files.hasFirst || LastOf(files) == [] || (bits == 0 && base != LastOf(files)[0].id))
  {
    ShardLogSound(files, shard, first, bits);
    ShardLogLocals(files.segs, shard, first, bits);
    AnyReuseIff(files, header, shard, base, bits, crc);
  }

  lemma {:induction false} FlattenConcat(a: seq<seq<Record>>, b: seq<seq<Record>>)
    ensures Flatten(a + b) == Flatten(a) + Flatten(b)
  {
    if b == [] {
      assert a + b == a && Flatten(a) + [] == Flatten(a);
    } else {
      var last := |b| - 1;
      assert (a + b)[..|a| + last] == a + b[..last];
      FlattenConcat(a, b[..last]);
      assert Flatten(a) + Flatten(b[..last]) + b[last] == Flatten(a) + (Flatten(b[..last]) + b[last]);
    }
  }

  /**
   After a restart without segment 1 a new one stands beside higher-numbered old files.  The restart
   after that scans the last of those, and reuses ids exactly when the new files have outgrown the old.
   */
  lemma SecondRestartReuseIff(anew: seq<seq<Record>>, past: seq<seq<Record>>, header: seq<Byte>, shard: nat, first: nat,
                              base: nat, bits: nat, crc: seq<Byte> -> Word32)
    requires |header| == HEADER_SIZE && ShardLog(anew, shard, 0, bits) && ShardLog(past, shard, first, bits)
    requires Found(Files(true, past), base, bits)
    ensures var files := Files(true, anew + past);
            Reuses(files.segs, shard, OpenLocal(files, header, base, bits, crc), bits) <==>
            |Flatten(anew)| > first + |Flatten(past)|
  {
    var files := Files(true, anew + past);
    FlattenConcat(anew, past);
    ShardLogSound(Files(true, past), shard, first, bits);
    ShardLogLocals(anew, shard, 0, bits);
    ShardLogLocals(past, shard, first, bits);
    SameLast(anew, past);
    OutgrownReuses(files, Flatten(anew), Flatten(past), header, shard, first, base, bits, crc);
  }

  lemma SameLast(a: seq<seq<Record>>, b: seq<seq<Record>>)
    requires b != []
    ensures LastOf(Files(true, a + b)) == LastOf(Files(true, b))
  {
  }

  lemma OutgrownReuses(files: Files, a: seq<Record>, b: seq<Record>, header: seq<Byte>, shard: nat, first: nat,
                       base: nat, bits: nat, crc: seq<Byte> -> Word32)
    requires |header| == HEADER_SIZE && LastSound(files, bits) && Found(files, base, bits) && Flatten(files.segs) == a + b
    requires OfShard(a, shard, bits) && (forall i :: 0 <= i < |a| ==> Local(a[i], bits) == i)
    requires OfShard(b, shard, bits) && (forall i :: 0 <= i < |b| ==> Local(b[i], bits) == first + i)
    requires b != [] && LastOf(files)[|LastOf(files)| - 1] == b[|b| - 1]
    ensures Reuses(files.segs, shard, OpenLocal(files, header, base, bits, crc), bits) <==> |a| > first + |b|
  {
    AnyReuseIff(files, header, shard, base, bits, crc);
    Outgrown(a, b, first, bits);
  }

  lemma Outgrown(a: seq<Record>, b: seq<Record>, first: nat, bits: nat)
    requires forall i :: 0 <= i < |a| ==> Local(a[i], bits) == i
    requires forall i :: 0 <= i < |b| ==> Local(b[i], bits) == first + i
    ensures Beyond(a + b, first + |b|, bits) <==> |a| > first + |b|
  {
    var all, n := a + b, first + |b|;
    assert forall i :: 0 <= i < |all| ==> Local(all[i], bits) == if i < |a| then i else first + (i - |a|);
    if |a| > n {
      assert Local(all[n], bits) >= n;
    }
  }

  // ── Instances ──────────────────────────────────────────────────────────────

  /** One full segment and a freshly prepared one. */
  lemma PreparedSegmentReusesIds(r: Record, header: seq<Byte>, base: nat, crc: seq<Byte> -> Word32)
    requires |header| == HEADER_SIZE && Storable(r) && r.id == 0
    ensures var files := Files(true, [[r], []]);
            Reuses(files.segs, 0, OpenLocal(files, header, base, 0, crc), 0)
  {
    var segs := [[r], []];
    FlattenOne([r]);
    assert segs[..1] == [[r]];
    assert Flatten(segs) == [r] + [] == [r];
    ReuseIff(Files(true, segs), header, 0, 0, base, 0, crc);
  }

  lemma FlattenOne(rs: seq<Record>)
    ensures Flatten([rs]) == rs
  {
    assert [rs][..0] == [] && [] + rs == rs;
  }

  /** Retention has left one segment with record 5: the shard starts over at 0. */
  lemma RetentionReusesIds(r: Record, header: seq<Byte>, base: nat, crc: seq<Byte> -> Word32)
    requires |header| == HEADER_SIZE && Storable(r) && r.id == 5
    ensures var files := Files(false, [[r]]);
            OpenLocal(files, header, base, 0, crc) == 0 && Reuses(files.segs, 0, 0, 0)
  {
    FlattenOne([r]);
    ReuseIff(Files(false, [[r]]), header, 0, 5, base, 0, crc);
  }

  /** The second segment was prepared for record 1, which still went into the first: the shard starts over at 0. */
  lemma StaleHeaderReusesIds(rs: seq<Record>, header: seq<Byte>, crc: seq<Byte> -> Word32)
    requires |header| == HEADER_SIZE && |rs| == 3 && forall i :: 0 <= i < 3 ==> Storable(rs[i]) && rs[i].id == i
    ensures var files := Files(true, [[rs[0], rs[1]], [rs[2]]]);
            OpenLocal(files, header, 1, 0, crc) == 0 && Reuses(files.segs, 0, 0, 0)
  {
    var files := Files(true, [[rs[0], rs[1]], [rs[2]]]);
    FlattenTwo([rs[0], rs[1]], [rs[2]]);
    assert [rs[0], rs[1]] + [rs[2]] == rs;
    StartsOver(files, rs, header, crc);
  }

  lemma FlattenTwo(a: seq<Record>, b: seq<Record>)
    ensures Flatten([a, b]) == a + b
  {
    FlattenOne(a);
    assert [a, b][..1] == [a];
  }

  lemma StartsOver(files: Files, rs: seq<Record>, header: seq<Byte>, crc: seq<Byte> -> Word32)
    requires |header| == HEADER_SIZE && |rs| == 3 && forall i :: 0 <= i < 3 ==> Storable(rs[i]) && rs[i].id == i
    requires files.hasFirst && Flatten(files.segs) == rs && LastOf(files) == [rs[2]]
    ensures OpenLocal(files, header, 1, 0, crc) == 0 && Reuses(files.segs, 0, 0, 0)
  {
    Unsharded(rs);
    ShardLogSound(files, 0, 0, 0);
    OpenLocalIs(files, header, 1, 0, crc);
    ReuseIff(files, header, 0, 0, 1, 0, crc);
  }

  lemma Unsharded(rs: seq<Record>)
    requires forall i :: 0 <= i < |rs| ==> rs[i].id == i
    ensures Pow2(0) == 1 && forall i :: 0 <= i < |rs| ==> rs[i].id == GlobalId(0, 0 + i, 0)
  {
  }

  /** Another shard's ids are never touched, wherever this one resumes. */
  lemma OtherShardsUntouched(segs: seq<seq<Record>>, shard: nat, first: nat, bits: nat, other: nat, l: nat)
    requires ShardLog(segs, shard, first, bits) && other < Pow2(bits) && other != shard
    ensures forall i :: 0 <= i < |Flatten(segs)| ==> GlobalId(other, l, bits) != Flatten(segs)[i].id
  {
    forall i | 0 <= i < |Flatten(segs)|
      ensures GlobalId(other, l, bits) != Flatten(segs)[i].id
    {
      DecodeGlobalId(other, l, bits);
      DecodeGlobalId(shard, first + i, bits);
    }
  }
}
