/**
 The hash-chain key of an encrypted shard.

 The key is fixed when the shard is created.  Every segment header stores it masked by a derivation
 of the encryption key active when the segment was made; recovery unmasks it by trying the known
 keys against the first record of the first surviving segment.
 */
module ChainKeys {
  import opened Wrappers

  /** 32 bytes. */
  type Word = w: seq<bv8> | |w| == 32 witness seq(32, i => 0 as bv8)
  type Content = seq<bv8>

  function Zeros(): (w: Word)
    ensures forall i :: 0 <= i < 32 ==> w[i] == 0
  {
    seq(32, i => 0 as bv8)
  }

  /** The derivation of a chain mask from an encryption key, and the keyed chain hash. */
  datatype Hashing = Hashing(derive: Word -> Word, chain: (Word, Word, Content) -> Word)

  function Xor32(a: Word, b: Word): (r: Word)
    ensures forall i :: 0 <= i < 32 ==> r[i] == a[i] ^ b[i]
  {
    seq(32, i requires 0 <= i < 32 => a[i] ^ b[i])
  }

  /** Masking twice with the same mask gives the key back. */
  lemma XorInvolution(a: Word, b: Word)
    ensures Xor32(Xor32(a, b), b) == a
  {
  }

  lemma XorSame(a: Word, b: Word, c: Word)
    requires Xor32(a, b) == Xor32(a, c)
    ensures b == c
  {
  }

  // ── Headers and recovery ───────────────────────────────────────────────────

  /** The first record as decoded: its content and its chain hash. */
  datatype First = First(content: Content, hash: Word)

  /** What recovery sees of the first surviving segment. */
  datatype Header = Header(masked: Word, prevHash: Word, first: Option<First>)

  function Mask(h: Hashing, chainKey: Word, active: Word): (masked: Word)
  {
    Xor32(chainKey, h.derive(active))
  }

  /** A key whose unmasking reproduces the first record's hash. */
  predicate Authenticates(h: Hashing, header: Header, key: Word)
    requires header.first.Some?
  {
    h.chain(Xor32(header.masked, h.derive(key)), header.prevHash, header.first.value.content) == header.first.value.hash
  }

  /** Tries the candidate keys in order; without a first record or a fitting key the active key's derivation is used. */
  method ResolveChainKey(h: Hashing, header: Header, candidates: seq<Word>, active: Word) returns (key: Word)
    ensures key == Resolved(h, header, candidates, active)
  {
    if header.first.None? {
      return h.derive(active);
    }
    for i := 0 to |candidates|
      invariant Resolved(h, header, candidates, active) == Resolved(h, header, candidates[i..], active)
    {
      assert candidates[i..][1..] == candidates[i + 1..];
      var candidate := Xor32(header.masked, h.derive(candidates[i]));
      if h.chain(candidate, header.prevHash, header.first.value.content) == header.first.value.hash {
        return candidate;
      }
    }
    key := h.derive(active);
  }

  function Resolved(h: Hashing, header: Header, candidates: seq<Word>, active: Word): (key: Word)
  {
    if header.first.None? || candidates == [] then h.derive(active)
    else if Authenticates(h, header, candidates[0]) then Xor32(header.masked, h.derive(candidates[0]))
    else Resolved(h, header, candidates[1..], active)
  }

  /** The segment was written with chain key `chainKey` masked by `key`, after a record whose hash was `prev`. */
  ghost predicate WrittenWith(h: Hashing, header: Header, chainKey: Word, key: Word, prev: Word)
  {
    && header.masked == Mask(h, chainKey, key)
    && (header.first.Some? ==> header.first.value.hash == h.chain(chainKey, prev, header.first.value.content))
  }

  /** Among the candidates only the true chain key over the true previous hash reproduces the first hash. */
  ghost predicate NoCollision(h: Hashing, header: Header, chainKey: Word, prev: Word, candidates: seq<Word>)
  {
    header.first.Some? ==>
      forall k :: k in candidates && Authenticates(h, header, k) ==> Xor32(header.masked, h.derive(k)) == chainKey && header.prevHash == prev
  }

  lemma {:induction false} ResolvedIf(h: Hashing, header: Header, chainKey: Word, key: Word, prev: Word, candidates: seq<Word>, active: Word)
    requires WrittenWith(h, header, chainKey, key, prev) && NoCollision(h, header, chainKey, prev, candidates)
    requires header.first.Some? && header.prevHash == prev && key in candidates
    ensures Resolved(h, header, candidates, active) == chainKey
  {
    XorInvolution(chainKey, h.derive(key));
    assert Authenticates(h, header, key);
    if !Authenticates(h, header, candidates[0]) {
      assert key in candidates[1..];
      ResolvedIf(h, header, chainKey, key, prev, candidates[1..], active);
    }
  }

  lemma {:induction false} ResolvedFallsBack(h: Hashing, header: Header, candidates: seq<Word>, active: Word)
    requires header.first.Some? ==> forall k :: k in candidates ==> !Authenticates(h, header, k)
    ensures Resolved(h, header, candidates, active) == h.derive(active)
  {
    if header.first.Some? && candidates != [] {
      assert candidates[0] in candidates;
      ResolvedFallsBack(h, header, candidates[1..], active);
    }
  }

  /** Some candidate derives the mask that was used. */
  ghost predicate HasMask(h: Hashing, candidates: seq<Word>, key: Word)
  {
    exists k :: k in candidates && h.derive(k) == h.derive(key)
  }

  /**
   Recovery returns the original chain key exactly when the first surviving segment has a readable
   first record, its header names the true previous hash and its masking key is still known -- or the
   active key happens to derive the chain key itself.
   */
  lemma ResolvedIff(h: Hashing, header: Header, chainKey: Word, key: Word, prev: Word, candidates: seq<Word>, active: Word)
    requires WrittenWith(h, header, chainKey, key, prev) && NoCollision(h, header, chainKey, prev, candidates)
    ensures Resolved(h, header, candidates, active) == chainKey <==>
            (header.first.Some? && header.prevHash == prev && HasMask(h, candidates, key)) || h.derive(active) == chainKey
  {
    if header.first.Some? && header.prevHash == prev && HasMask(h, candidates, key) {
      var k :| k in candidates && h.derive(k) == h.derive(key);
      ResolvedIf(h, header, chainKey, k, prev, candidates, active);
    } else {
      if header.first.Some? {
        forall k | k in candidates
          ensures !Authenticates(h, header, k)
        {
          if Authenticates(h, header, k) {
            XorInvolution(chainKey, h.derive(key));
            XorSame(header.masked, h.derive(k), h.derive(key));
          }
        }
      }
      ResolvedFallsBack(h, header, candidates, active);
    }
  }

  // ── Rolls, retention and restarts ──────────────────────────────────────────

  /** A segment: its header, the masking key, the hash its first record really follows, and its last record's hash. */
  datatype Segment = Segment(header: Header, key: Word, prev: Word, last: Word)

  /**
   `managerLast` is what the segment manager writes as previous hash; only opening a shard sets it.
   `hasFirst`: the first of `segments` is the one numbered 1.  `orphans` are files of an earlier chain
   that the open shard does not know of; they are numbered higher.
   */
  datatype State = State(chainKey: Word, segments: seq<Segment>, managerLast: Word, lastHash: Word, hasFirst: bool, orphans: seq<Segment>)

  datatype Event =
    | Append(content: Content)
    | Roll(active: Word)
    | Retire(count: nat)
    | Reopen(candidates: seq<Word>, active: Word, generated: Word)

  function Created(h: Hashing, chainKey: Word, active: Word): (st: State)
  {
    State(chainKey, [Segment(Header(Mask(h, chainKey, active), Zeros(), None), active, Zeros(), Zeros())], Zeros(), Zeros(), true, [])
  }

  function Recorded(seg: Segment, prev: Word, content: Content, hash: Word): (seg': Segment)
  {
    if seg.header.first.Some? then seg.(last := hash)
    else seg.(last := hash, prev := prev, header := seg.header.(first := Some(First(content, hash))))
  }

  function Active(st: State): (seg: Segment)
    requires st.segments != []
  {
    st.segments[|st.segments| - 1]
  }

  function WithActive(segments: seq<Segment>, seg: Segment): (r: seq<Segment>)
    requires segments != []
  {
    segments[|segments| - 1 := seg]
  }

  function Hashed(h: Hashing, st: State, content: Content): (hash: Word)
  {
    h.chain(st.chainKey, st.lastHash, content)
  }

  function NewSegment(h: Hashing, st: State, active: Word): (seg: Segment)
  {
    Segment(Header(Mask(h, st.chainKey, active), st.managerLast, None), active, st.lastHash, Zeros())
  }

  function Appended(h: Hashing, st: State, content: Content): (st': State)
    requires st.segments != []
  {
    var hash := Hashed(h, st, content);
    st.(lastHash := hash, segments := WithActive(st.segments, Recorded(Active(st), st.lastHash, content, hash)))
  }

  ghost predicate Next(h: Hashing, st: State, e: Event, st': State)
  {
    && st.segments != []
    && match e
       case Append(content) =>
         st' == Appended(h, st, content)
       case Roll(active) => st' == st.(segments := st.segments + [NewSegment(h, st, active)])
       case Retire(n) => n < |st.segments| && st' == st.(segments := st.segments[n..], hasFirst := st.hasFirst && n == 0)
       case Reopen(candidates, active, generated) =>
         st' == if st.hasFirst then Recovered(h, st.segments + st.orphans, candidates, active)
                else Created(h, generated, active).(orphans := st.segments + st.orphans)
  }

  /** Recovery of a directory: the key from the first segment, the last hash from the last. */
  function Recovered(h: Hashing, all: seq<Segment>, candidates: seq<Word>, active: Word): (st: State)
    requires all != []
  {
    var last := all[|all| - 1].last;
    State(Resolved(h, all[0].header, candidates, active), all, last, last, true, [])
  }

  /** Segment 1 begins the chain: nothing precedes its first record. */
  ghost predicate Original(st: State)
  {
    && st.segments != []
    && (st.hasFirst ==>
          && st.segments[0].header.prevHash == Zeros() && st.segments[0].prev == Zeros()
          && (st.segments[0].header.first.None? && |st.segments| == 1 ==> st.lastHash == Zeros() && st.segments[0].last == Zeros()))
  }

  lemma NextKeepsOriginal(h: Hashing, st: State, e: Event, st': State)
    requires Original(st) && Next(h, st, e, st')
    ensures Original(st')
  {
    assert e.Retire? && e.count == 0 ==> st.segments[0..] == st.segments;
  }

  /** Every segment was written with the chain key. */
  ghost predicate Inv(h: Hashing, chainKey: Word, st: State)
  {
    && Original(st) && st.chainKey == chainKey && st.orphans == []
    && (forall i :: 0 <= i < |st.segments| ==>
                      WrittenWith(h, st.segments[i].header, chainKey, st.segments[i].key, st.segments[i].prev))
  }

  /** Segment 1 is there, with a readable record and a known masking key, or else the active key derives the chain key. */
  ghost predicate Recoverable(h: Hashing, st: State, candidates: seq<Word>, active: Word)
    requires st.segments != []
  {
    && st.hasFirst
    && ((st.segments[0].header.first.Some? && HasMask(h, candidates, st.segments[0].key)) || h.derive(active) == st.chainKey)
  }

  /** At a restart no other candidate reproduces the first record's hash, and a generated key is a new one. */
  ghost predicate Sane(h: Hashing, st: State, e: Event)
    requires st.segments != []
  {
    e.Reopen? ==> if st.hasFirst then NoCollision(h, st.segments[0].header, st.chainKey, st.segments[0].prev, e.candidates)
                  else e.generated != st.chainKey
  }

  /** A restart keeps the chain key exactly when segment 1 is there and can be unmasked, or the active key derives it. */
  lemma ReopenKeepsKeyIff(h: Hashing, chainKey: Word, st: State, candidates: seq<Word>, active: Word, generated: Word, st': State)
    requires Inv(h, chainKey, st) && Next(h, st, Reopen(candidates, active, generated), st') && Sane(h, st, Reopen(candidates, active, generated))
    ensures st'.chainKey == chainKey <==> Recoverable(h, st, candidates, active)
    ensures st'.chainKey == chainKey ==> Inv(h, chainKey, st')
  {
    if st.hasFirst {
      assert st.segments + st.orphans == st.segments;
      ResolvedIff(h, st.segments[0].header, chainKey, st.segments[0].key, st.segments[0].prev, candidates, active);
    }
  }

  lemma NextKeepsInv(h: Hashing, chainKey: Word, st: State, e: Event, st': State)
    requires Inv(h, chainKey, st) && Next(h, st, e, st') && Sane(h, st, e)
    requires e.Reopen? ==> Recoverable(h, st, e.candidates, e.active)
    ensures Inv(h, chainKey, st')
  {
    NextKeepsOriginal(h, st, e, st');
    if e.Reopen? {
      ReopenKeepsKeyIff(h, chainKey, st, e.candidates, e.active, e.generated, st');
    }
  }

  ghost predicate StepAt(h: Hashing, run: seq<State>, events: seq<Event>, k: nat)
    requires |run| == |events| + 1 && k < |events|
  {
    Next(h, run[k], events[k], run[k + 1]) && Sane(h, run[k], events[k])
  }

  ghost predicate IsRun(h: Hashing, chainKey: Word, active: Word, run: seq<State>, events: seq<Event>)
  {
    && |run| == |events| + 1 && run[0] == Created(h, chainKey, active)
    && forall i :: 0 <= i < |events| ==> StepAt(h, run, events, i)
  }

  ghost predicate RecoverableAt(h: Hashing, run: seq<State>, events: seq<Event>, k: nat)
    requires |run| == |events| + 1 && k < |events|
  {
    events[k].Reopen? ==> run[k].segments != [] && Recoverable(h, run[k], events[k].candidates, events[k].active)
  }

  lemma {:induction false} RecoverableKeepsInv(h: Hashing, chainKey: Word, active: Word, run: seq<State>, events: seq<Event>, k: nat)
    requires IsRun(h, chainKey, active, run, events) && k < |run|
    requires forall i :: 0 <= i < k ==> RecoverableAt(h, run, events, i)
    ensures Inv(h, chainKey, run[k])
  {
    if k > 0 {
      RecoverableKeepsInv(h, chainKey, active, run, events, k - 1);
      assert StepAt(h, run, events, k - 1) && RecoverableAt(h, run, events, k - 1);
      NextKeepsInv(h, chainKey, run[k - 1], events[k - 1], run[k]);
    }
  }

  /** Up to step `k` the chain key is the original one all along. */
  ghost predicate KeyKept(chainKey: Word, run: seq<State>, k: nat)
    requires k < |run|
  {
    forall i :: 0 <= i <= k ==> run[i].chainKey == chainKey
  }

  /**
   Over any sequence of appends, rolls under any keys, retention and restarts, the chain key stays the
   original one if and only if every restart finds segment 1, and can unmask it or derive the key.
   */
  lemma {:induction false} ChainKeyStableIff(h: Hashing, chainKey: Word, active: Word, run: seq<State>, events: seq<Event>, k: nat)
    requires IsRun(h, chainKey, active, run, events) && k < |run|
    ensures KeyKept(chainKey, run, k) <==> forall i :: 0 <= i < k ==> RecoverableAt(h, run, events, i)
  {
    if k > 0 {
      ChainKeyStableIff(h, chainKey, active, run, events, k - 1);
      assert KeyKept(chainKey, run, k) <==> KeyKept(chainKey, run, k - 1) && run[k].chainKey == chainKey;
      if KeyKept(chainKey, run, k - 1) {
        RecoverableKeepsInv(h, chainKey, active, run, events, k - 1);
        assert StepAt(h, run, events, k - 1);
        if events[k - 1].Reopen? {
          var e := events[k - 1];
          ReopenKeepsKeyIff(h, chainKey, run[k - 1], e.candidates, e.active, e.generated, run[k]);
        }
        assert RecoverableAt(h, run, events, k - 1) <==> run[k].chainKey == chainKey;
      }
    }
  }

  // ── Which headers are true ─────────────────────────────────────────────────

  /** A stretch without restart that begins right after opening; no hash comes back to the one it began with. */
  ghost predicate Session(h: Hashing, run: seq<State>, events: seq<Event>)
  {
    && |run| == |events| + 1 && run[0].managerLast == run[0].lastHash
    && forall i :: 0 <= i < |events| ==> SessionStep(h, run, events, i)
  }

  ghost predicate SessionStep(h: Hashing, run: seq<State>, events: seq<Event>, i: nat)
    requires |run| == |events| + 1 && i < |events|
  {
    && !events[i].Reopen? && Next(h, run[i], events[i], run[i + 1])
    && (events[i].Append? ==> run[i + 1].lastHash != run[0].lastHash)
  }

  ghost predicate NoAppend(events: seq<Event>, k: nat)
    requires k <= |events|
  {
    forall i :: 0 <= i < k ==> !events[i].Append?
  }

  /** The manager keeps the hash it was opened with, and that is the current one exactly until the first append. */
  lemma {:induction false} ManagerFallsBehind(h: Hashing, run: seq<State>, events: seq<Event>, k: nat)
    requires Session(h, run, events) && k < |run|
    ensures run[k].managerLast == run[0].lastHash
    ensures run[k].lastHash == run[0].lastHash <==> NoAppend(events, k)
  {
    if k > 0 {
      ManagerFallsBehind(h, run, events, k - 1);
      assert SessionStep(h, run, events, k - 1);
    }
  }

  lemma {:induction false} ActiveWaits(h: Hashing, run: seq<State>, events: seq<Event>, k: nat, j: nat)
    requires Session(h, run, events) && k < j < |run| && events[k].Roll?
    requires forall i :: k < i < j ==> events[i].Retire?
    ensures run[j].segments != [] && Active(run[j]) == NewSegment(h, run[k], events[k].active) && run[j].lastHash == run[k].lastHash
    decreases j
  {
    assert SessionStep(h, run, events, j - 1);
    if j > k + 1 {
      ActiveWaits(h, run, events, k, j - 1);
    }
  }

  /**
   A segment rolled at step `k` whose first record is appended at step `j` carries the true previous
   hash exactly when nothing had been appended between opening the shard and the roll.
   */
  lemma RolledHeaderTrueIff(h: Hashing, run: seq<State>, events: seq<Event>, k: nat, j: nat)
    requires Session(h, run, events) && k < j < |events| && events[k].Roll? && events[j].Append?
    requires forall i :: k < i < j ==> events[i].Retire?
    ensures run[j + 1].segments != []
    ensures Active(run[j + 1]).header.prevHash == Active(run[j + 1]).prev <==> NoAppend(events, k)
  {
    ActiveWaits(h, run, events, k, j);
    ManagerFallsBehind(h, run, events, k);
    assert SessionStep(h, run, events, j);
  }

  /** In every state of every run the segment numbered 1 has a true header. */
  lemma {:induction false} OriginalHeaderTrue(h: Hashing, chainKey: Word, active: Word, run: seq<State>, events: seq<Event>, k: nat)
    requires IsRun(h, chainKey, active, run, events) && k < |run|
    ensures Original(run[k])
  {
    if k > 0 {
      OriginalHeaderTrue(h, chainKey, active, run, events, k - 1);
      assert StepAt(h, run, events, k - 1);
      NextKeepsOriginal(h, run[k - 1], events[k - 1], run[k]);
    }
  }

  /** Once retention has removed segment 1, the next restart begins a new chain beside the old files, whatever the keys. */
  lemma RetentionLosesKey(h: Hashing, chainKey: Word, key: Word, a: Content, b: Content, candidates: seq<Word>, active: Word, generated: Word)
    returns (run: seq<State>, events: seq<Event>)
    requires generated != chainKey
    ensures IsRun(h, chainKey, key, run, events)
    ensures events == [Append(a), Roll(key), Append(b), Retire(1), Reopen(candidates, active, generated)]
    ensures run[5] == Created(h, generated, active).(orphans := run[4].segments) && run[4].segments != []
  {
    var s0 := Created(h, chainKey, key);
    var s1 := Appended(h, s0, a);
    var s2 := s1.(segments := s1.segments + [NewSegment(h, s1, key)]);
    var s3 := Appended(h, s2, b);
    var s4 := s3.(segments := s3.segments[1..], hasFirst := false);
    var s5 := Created(h, generated, active).(orphans := s4.segments);
    run := [s0, s1, s2, s3, s4, s5];
    events := [Append(a), Roll(key), Append(b), Retire(1), Reopen(candidates, active, generated)];
    assert s4.segments + s4.orphans == s4.segments;
    assert StepAt(h, run, events, 0) && StepAt(h, run, events, 1) && StepAt(h, run, events, 2);
    assert StepAt(h, run, events, 3) && StepAt(h, run, events, 4);
  }
}
