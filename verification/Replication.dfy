/**
 Primary/standby replication.

 The primary pushes its durable records, batch after batch, to every connected standby and counts
 acknowledgements.  Requests may be lost, delayed, repeated or only partly applied; a standby takes
 a record only as the next one it lacks.
 */
module Replication {
  import opened Arith

  datatype Payload = Payload(timestamp: nat, content: seq<nat>)

  /** A record on the wire: the primary's id and its bytes. */
  datatype Wire = Wire(gid: nat, payload: Payload)

  datatype Request = Request(clusterId: string, epoch: nat, records: seq<Wire>)

  datatype Response = Ack(lastGid: nat) | WrongCluster | StaleEpoch | Failed

  // ── Standby ────────────────────────────────────────────────────────────────

  /** What the environment does to one record: stored, refused before the write, or failed after it. */
  datatype Fate = Stored | Refused | FailedAfterWrite

  /** Effect of a request on a standby's log, with the answer it gives. */
  ghost predicate SyncEffect(before: seq<Payload>, records: seq<Wire>, after: seq<Payload>, response: Response)
  {
    && before <= after
    && (forall i :: |before| <= i < |after| ==> Wire(i, after[i]) in records)
    && (response.Ack? ==>
          if records == [] then
            after == before && response.lastGid == 0
          else
            response.lastGid == records[|records| - 1].gid && forall k :: 0 <= k < |records| ==> records[k].gid < |after|)
  }

  class Standby {
    var log: seq<Payload>
    const clusterId: string
    const epoch: nat

    constructor (clusterId: string, epoch: nat, log: seq<Payload>)
      ensures this.log == log && this.clusterId == clusterId && this.epoch == epoch
    {
      this.log := log;
      this.clusterId := clusterId;
      this.epoch := epoch;
    }

    /** Writes at exactly `gid`: a known id is a no-op, a gap is an error. */
    method Replicate(gid: nat, payload: Payload, fate: Fate) returns (ok: bool)
      modifies this
      ensures log == old(log) || (gid == |old(log)| && log == old(log) + [payload])
      ensures ok ==> gid < |log|
      ensures ok <==> fate.Stored? && gid <= |old(log)|
    {
      if fate.Refused? {
        return false;
      }
      if gid < |log| {
        return fate.Stored?;
      }
      if gid != |log| {
        return false;
      }
      log := log + [payload];
      return fate.Stored?;
    }

    method Sync(request: Request, fates: seq<Fate>) returns (response: Response)
      requires |fates| == |request.records|
      modifies this
      ensures SyncEffect(old(log), request.records, log, response)
      ensures response.WrongCluster? <==> request.clusterId != "" && request.clusterId != clusterId
      ensures response.StaleEpoch? <==> !response.WrongCluster? && 0 < request.epoch < epoch
      ensures response.WrongCluster? || response.StaleEpoch? ==> log == old(log)
    {
      if request.clusterId != "" && request.clusterId != clusterId {
        return WrongCluster;
      }
      if request.epoch > 0 && request.epoch < epoch {
        return StaleEpoch;
      }
      var records := request.records;
      if records == [] {
        return Ack(0);
      }
      var lastGid := 0;
      for k := 0 to |records|
        invariant old(log) <= log
        invariant forall i :: |old(log)| <= i < |log| ==> Wire(i, log[i]) in records
        invariant forall j :: 0 <= j < k ==> records[j].gid < |log|
        invariant k > 0 ==> lastGid == records[k - 1].gid
      {
        assert records[k] == Wire(records[k].gid, records[k].payload) && records[k] in records;
        var ok := Replicate(records[k].gid, records[k].payload, fates[k]);
        if !ok {
          return Failed;
        }
        lastGid := records[k].gid;
      }
      return Ack(lastGid);
    }
  }

  // ── Primary ────────────────────────────────────────────────────────────────

  datatype Policy = All | Quorum | N(acks: nat)
  datatype OnTimeout = Fail | AsyncWarn | Block
  datatype Config = Config(sync: bool, policy: Policy, onTimeout: OnTimeout, total: nat)

  /** Acknowledgements the policy asks for, out of `total` connected standbys. */
  function Required(c: Config): (n: nat)
  {
    match c.policy
    case All => c.total
    case Quorum => c.total / 2 + 1
    case N(acks) => Min(acks, c.total)
  }

  /** What the push loop sees of one client. */
  datatype Outcome = Acked(lastGid: nat) | NotAcked

  ghost function AckSet(outcomes: seq<Outcome>): (clients: set<nat>)
  {
    set i: nat | i < |outcomes| && outcomes[i].Acked?
  }

  /** `gid` is the largest acknowledged id, or `floor` when none exceeds it. */
  ghost predicate IsLastAcked(outcomes: seq<Outcome>, floor: nat, gid: nat)
  {
    && floor <= gid
    && (forall i :: 0 <= i < |outcomes| && outcomes[i].Acked? ==> outcomes[i].lastGid <= gid)
    && (gid == floor || exists i :: 0 <= i < |outcomes| && outcomes[i] == Acked(gid))
  }

  /** Whether the loop moves on with this many acknowledgements. */
  predicate Advances(c: Config, acks: nat)
  {
    !c.sync || acks >= Required(c) || c.onTimeout.AsyncWarn?
  }

  class Primary {
    const config: Config
    var pushSeq: nat
    var replicated: nat

    constructor (config: Config)
      ensures this.config == config && pushSeq == 0 && replicated == 0
    {
      this.config := config;
      pushSeq, replicated := 0, 0;
    }

    method AdvanceReplicated(gid: nat)
      modifies this`replicated
      ensures replicated == Max(old(replicated), gid)
    {
      if gid > replicated {
        replicated := gid;
      }
    }

    /** One round: count the answers to `records`, then decide whether to advance. */
    method Conclude(records: seq<Wire>, outcomes: seq<Outcome>)
      requires records != [] && |outcomes| == config.total
      modifies this
      ensures config.total == 0 ==> pushSeq == records[|records| - 1].gid
      ensures config.total > 0 && !Advances(config, |AckSet(outcomes)|) ==> pushSeq == old(pushSeq)
      ensures config.total > 0 && Advances(config, |AckSet(outcomes)|) ==> IsLastAcked(outcomes, old(pushSeq), pushSeq)
      ensures replicated == if pushSeq == old(pushSeq) && config.total > 0 then old(replicated) else Max(old(replicated), pushSeq)
    {
      var total := |outcomes|;
      if total == 0 {
        pushSeq := records[|records| - 1].gid;
        AdvanceReplicated(pushSeq);
        return;
      }
      var acked: nat, lastAcked: nat := 0, pushSeq;
      for i := 0 to total
        invariant pushSeq == old(pushSeq) && replicated == old(replicated)
        invariant acked == |AckSet(outcomes[..i])|
        invariant IsLastAcked(outcomes[..i], pushSeq, lastAcked)
      {
        AckSetGrows(outcomes, i);
        LastAckedGrows(outcomes, i, pushSeq, lastAcked);
        if outcomes[i].Acked? {
          lastAcked := Max(lastAcked, outcomes[i].lastGid);
          acked := acked + 1;
        }
      }
      assert outcomes[..total] == outcomes;
      if !config.sync || acked >= Required(config) {
        if lastAcked > pushSeq {
          pushSeq := lastAcked;
          AdvanceReplicated(pushSeq);
        }
      } else if config.onTimeout.Fail? {
        // retried from the same position
      } else if config.onTimeout.AsyncWarn? {
        if lastAcked > pushSeq {
          pushSeq := lastAcked;
          AdvanceReplicated(pushSeq);
        }
      }
    }
  }

  lemma AckSetGrows(outcomes: seq<Outcome>, i: nat)
    requires i < |outcomes|
    ensures |AckSet(outcomes[..i + 1])| == |AckSet(outcomes[..i])| + if outcomes[i].Acked? then 1 else 0
  {
    if outcomes[i].Acked? {
      assert AckSet(outcomes[..i + 1]) == AckSet(outcomes[..i]) + {i};
    } else {
      assert AckSet(outcomes[..i + 1]) == AckSet(outcomes[..i]);
    }
  }

  lemma LastAckedGrows(outcomes: seq<Outcome>, i: nat, floor: nat, gid: nat)
    requires i < |outcomes| && IsLastAcked(outcomes[..i], floor, gid)
    ensures IsLastAcked(outcomes[..i + 1], floor, if outcomes[i].Acked? then Max(gid, outcomes[i].lastGid) else gid)
  {
  }

  // ── The protocol as a state machine ────────────────────────────────────────

  datatype Round = Idle | Waiting(records: seq<Wire>, acked: set<nat>)

  /** `network` keeps every batch ever sent: any of them may still reach any standby, any number of times. */
  datatype State = State(
    primary: seq<Payload>,
    durable: nat,
    pushSeq: nat,
    replicated: nat,
    standbys: seq<seq<Payload>>,
    network: set<seq<Wire>>,
    round: Round)

  /** What a scan of `[from, to)` of the primary's log puts on the wire. */
  function Slice(log: seq<Payload>, from: nat, to: nat): (records: seq<Wire>)
    requires from <= to <= |log|
    ensures |records| == to - from
    ensures forall k :: 0 <= k < |records| ==> records[k] == Wire(from + k, log[from + k])
  {
    seq(to - from, k requires 0 <= k < to - from => Wire(from + k, log[from + k]))
  }

  ghost predicate Init(c: Config, s: State)
  {
    && |s.standbys| == c.total
    && s.durable <= |s.primary|
    && (forall i :: 0 <= i < c.total ==> s.standbys[i] <= s.primary[..s.durable])
    && s.pushSeq == 0 && s.replicated == 0 && s.network == {} && s.round.Idle?
  }

  ghost predicate Append(s: State, s': State, p: Payload)
  {
    s' == s.(primary := s.primary + [p])
  }

  ghost predicate Fsync(s: State, s': State)
  {
    s.durable <= s'.durable <= |s.primary| && s' == s.(durable := s'.durable)
  }

  /** The loop reads everything durable past `pushSeq` and sends it to every client. */
  ghost predicate Send(c: Config, s: State, s': State)
  {
    && s.round.Idle?
    && s.pushSeq < s.durable <= |s.primary|
    && var records := Slice(s.primary, s.pushSeq, s.durable);
       s' == s.(network := s.network + {records}, round := Waiting(records, {}))
  }

  /** A standby processes some batch; if it is the current one, the answer may reach the primary. */
  ghost predicate Deliver(c: Config, s: State, s': State, i: nat, records: seq<Wire>, response: Response, heard: bool)
  {
    && i < |s.standbys| == |s'.standbys|
    && records in s.network
    && SyncEffect(s.standbys[i], records, s'.standbys[i], response)
    && (heard ==> s.round.Waiting? && s.round.records == records && response.Ack?)
    && s' == s.(standbys := s.standbys[i := s'.standbys[i]],
                round := if heard then Waiting(records, s.round.acked + {i}) else s.round)
  }

  /** The effect of `Primary.Conclude`, with exactly the heard clients acknowledged. */
  ghost predicate Conclude(c: Config, s: State, s': State)
  {
    && s.round.Waiting? && s.round.records != []
    && var last := s.round.records[|s.round.records| - 1].gid;
       var push := if c.total == 0 then last
                   else if Advances(c, |s.round.acked|) && s.round.acked != {} then Max(s.pushSeq, last) else s.pushSeq;
       s' == s.(round := Idle, pushSeq := push, replicated := Max(s.replicated, push))
  }

  ghost predicate Next(c: Config, s: State, s': State)
  {
    || (exists p :: Append(s, s', p))
    || Fsync(s, s')
    || Send(c, s, s')
    || (exists i, records, response, heard :: Deliver(c, s, s', i, records, response, heard))
    || Conclude(c, s, s')
  }

  /** `Primary.Conclude` on the outcomes of a round is the machine's step. */
  lemma ConcludeMatches(c: Config, push: nat, push': nat, outcomes: seq<Outcome>, last: nat)
    requires |outcomes| == c.total > 0
    requires forall i :: 0 <= i < |outcomes| && outcomes[i].Acked? ==> outcomes[i].lastGid == last
    requires !Advances(c, |AckSet(outcomes)|) ==> push' == push
    requires Advances(c, |AckSet(outcomes)|) ==> IsLastAcked(outcomes, push, push')
    ensures push' == if Advances(c, |AckSet(outcomes)|) && AckSet(outcomes) != {} then Max(push, last) else push
  {
    if AckSet(outcomes) != {} {
      var i :| i in AckSet(outcomes);
      assert outcomes[i].lastGid == last;
    } else {
      forall i | 0 <= i < |outcomes|
        ensures !outcomes[i].Acked?
      {
        assert i !in AckSet(outcomes);
      }
    }
  }

  /** The standbys that hold the record `g`, and with it everything before it. */
  ghost function Holders(s: State, g: nat): (clients: set<nat>)
  {
    set i: nat | i < |s.standbys| && |s.standbys[i]| > g
  }

  ghost predicate IsSlice(s: State, records: seq<Wire>)
  {
    && records != []
    && var from, to := records[0].gid, records[0].gid + |records|;
       to <= s.durable <= |s.primary| && records == Slice(s.primary, from, to)
  }

  ghost predicate Inv(c: Config, s: State)
  {
    && |s.standbys| == c.total
    && s.durable <= |s.primary|
    && (forall i :: 0 <= i < c.total ==> s.standbys[i] <= s.primary[..s.durable])
    && (forall records :: records in s.network ==> IsSlice(s, records))
    && s.replicated == s.pushSeq
    && (s.round.Waiting? ==>
          && s.round.records in s.network
          && s.round.records[0].gid == s.pushSeq
          && s.round.acked <= Holders(s, s.round.records[|s.round.records| - 1].gid))
  }

  // ── What every step keeps ──────────────────────────────────────────────────

  /** Slices stay slices while the primary's log and its durable part grow. */
  lemma SliceStays(s: State, s': State, records: seq<Wire>)
    requires IsSlice(s, records)
    requires s.primary <= s'.primary && s.durable <= s'.durable <= |s'.primary|
    ensures IsSlice(s', records)
  {
    var from, to := records[0].gid, records[0].gid + |records|;
    assert Slice(s'.primary, from, to) == Slice(s.primary, from, to);
  }

  lemma GrowthKeepsInv(c: Config, s: State, s': State)
    requires Inv(c, s)
    requires s.primary <= s'.primary && s.durable <= s'.durable <= |s'.primary|
    requires s' == s.(primary := s'.primary, durable := s'.durable)
    ensures Inv(c, s')
  {
  }

  /** Standby logs only grow, so whoever holds a record keeps holding it. */
  lemma HoldersGrow(s: State, s': State, g: nat)
    requires |s.standbys| == |s'.standbys|
    requires forall i :: 0 <= i < |s.standbys| ==> s.standbys[i] <= s'.standbys[i]
    ensures Holders(s, g) <= Holders(s', g)
  {
  }

  /** Applying a slice of the primary's log to a prefix of it leaves a prefix of it. */
  lemma SyncKeepsPrefix(s: State, records: seq<Wire>, before: seq<Payload>, after: seq<Payload>, response: Response)
    requires IsSlice(s, records) && before <= s.primary[..s.durable]
    requires SyncEffect(before, records, after, response)
    ensures after <= s.primary[..s.durable]
  {
    forall i | 0 <= i < |after|
      ensures FromPrimary(s, after, i)
    {
      if i < |before| {
        assert after[i] == before[i] == s.primary[..s.durable][i];
      } else {
        assert Wire(i, after[i]) in records;
      }
    }
    assert after != [] ==> FromPrimary(s, after, |after| - 1);
    assert forall i :: 0 <= i < |after| ==> FromPrimary(s, after, i) && after[i] == s.primary[..s.durable][i];
  }

  ghost predicate FromPrimary(s: State, log: seq<Payload>, i: int)
    requires 0 <= i < |log| && s.durable <= |s.primary|
  {
    i < s.durable && log[i] == s.primary[i]
  }

  lemma DeliverKeepsInv(c: Config, s: State, s': State, i: nat, records: seq<Wire>, response: Response, heard: bool)
    requires Inv(c, s) && Deliver(c, s, s', i, records, response, heard)
    ensures Inv(c, s')
    ensures forall g :: Holders(s, g) <= Holders(s', g)
  {
    forall g
      ensures Holders(s, g) <= Holders(s', g)
    {
      HoldersGrow(s, s', g);
    }
    SyncKeepsPrefix(s, records, s.standbys[i], s'.standbys[i], response);
    forall r | r in s'.network
      ensures IsSlice(s', r)
    {
      SliceStays(s, s', r);
    }
    if heard {
      assert i in Holders(s', records[|records| - 1].gid);
    }
  }

  lemma SendKeepsInv(c: Config, s: State, s': State)
    requires Inv(c, s) && Send(c, s, s')
    ensures Inv(c, s')
  {
  }

  lemma NextKeepsInv(c: Config, s: State, s': State)
    requires Inv(c, s) && Next(c, s, s')
    ensures Inv(c, s')
    ensures forall g :: Holders(s, g) <= Holders(s', g)
  {
    if p :| Append(s, s', p) {
      GrowthKeepsInv(c, s, s');
    } else if Fsync(s, s') {
      GrowthKeepsInv(c, s, s');
    } else if Send(c, s, s') {
      SendKeepsInv(c, s, s');
    } else if i, records, response, heard :| Deliver(c, s, s', i, records, response, heard) {
      DeliverKeepsInv(c, s, s', i, records, response, heard);
    } else {
      assert IsSlice(s, s.round.records);
      forall r | r in s'.network
        ensures IsSlice(s', r)
      {
        SliceStays(s, s', r);
      }
    }
  }

  // ── Safety of the replicated cursor ────────────────────────────────────────

  /** The replicated cursor's promise: enough standbys hold everything up to it. */
  ghost predicate Safe(c: Config, s: State)
  {
    s.replicated > 0 ==> |Holders(s, s.replicated)| >= Required(c)
  }

  /** Configurations in which the loop advances only on enough acknowledgements. */
  predicate Guaranteed(c: Config)
  {
    || Required(c) == 0
    || (c.total > 0 && ((c.sync && !c.onTimeout.AsyncWarn?) || Required(c) <= 1))
  }

  lemma NextKeepsSafe(c: Config, s: State, s': State)
    requires Guaranteed(c) && Inv(c, s) && Safe(c, s) && Next(c, s, s')
    ensures Safe(c, s')
  {
    NextKeepsInv(c, s, s');
    if s'.replicated == s.replicated {
      SubsetSize(Holders(s, s.replicated), Holders(s', s.replicated));
    } else {
      assert Conclude(c, s, s');
      var last := s.round.records[|s.round.records| - 1].gid;
      if c.total > 0 {
        assert s'.replicated == last && s.round.acked != {};
        SubsetSize(s.round.acked, Holders(s, last));
        SubsetSize(Holders(s, last), Holders(s', last));
      }
    }
  }

  ghost predicate IsRun(c: Config, run: seq<State>)
  {
    && run != [] && Init(c, run[0])
    && forall k :: 0 <= k < |run| - 1 ==> Next(c, run[k], run[k + 1])
  }

  lemma {:induction false} RunKeepsInv(c: Config, run: seq<State>, k: nat)
    requires IsRun(c, run) && k < |run|
    ensures Inv(c, run[k])
    ensures Guaranteed(c) ==> Safe(c, run[k])
  {
    if k > 0 {
      RunKeepsInv(c, run, k - 1);
      assert Next(c, run[k - 1], run[k]);
      NextKeepsInv(c, run[k - 1], run[k]);
      if Guaranteed(c) {
        NextKeepsSafe(c, run[k - 1], run[k]);
      }
    }
  }

  /** In every run each standby holds a prefix of the primary's durable log. */
  lemma StandbysArePrefixes(c: Config, run: seq<State>, k: nat, i: nat)
    requires IsRun(c, run) && k < |run| && i < c.total
    ensures var s := run[k];
            i < |s.standbys| && s.durable <= |s.primary| && s.standbys[i] <= s.primary[..s.durable]
  {
    RunKeepsInv(c, run, k);
  }

  /** In every run whoever holds the replicated record holds exactly the primary's records up to it. */
  lemma HoldersHaveEverything(c: Config, run: seq<State>, k: nat, i: nat, g: nat)
    requires IsRun(c, run) && k < |run| && i in Holders(run[k], g)
    ensures var s := run[k]; g < |s.primary| && s.standbys[i][..g + 1] == s.primary[..g + 1]
  {
    RunKeepsInv(c, run, k);
    var s := run[k];
    assert s.standbys[i] <= s.primary[..s.durable];
    forall j | 0 <= j <= g
      ensures s.standbys[i][j] == s.primary[j]
    {
      assert s.standbys[i][j] == s.primary[..s.durable][j];
    }
  }

  // ── Exactly when the promise holds ─────────────────────────────────────────

  lemma RunExtend(c: Config, run: seq<State>, s: State)
    requires IsRun(c, run) && Next(c, run[|run| - 1], s)
    ensures IsRun(c, run + [s])
  {
    forall k | 0 <= k < |run|
      ensures Next(c, (run + [s])[k], (run + [s])[k + 1])
    {
      assert k < |run| - 1 ==> Next(c, run[k], run[k + 1]);
    }
  }

  /** Two durable records, sent to standbys that have nothing. */
  lemma FirstRound(c: Config, p: Payload, records: seq<Wire>) returns (run: seq<State>)
    requires records == Slice([p, p], 0, 2)
    ensures IsRun(c, run)
    ensures run[|run| - 1] == State([p, p], 2, 0, 0, seq(c.total, i => []), {records}, Waiting(records, {}))
  {
    var s0 := State([p, p], 2, 0, 0, seq(c.total, i => []), {}, Idle);
    var s1 := s0.(network := {records}, round := Waiting(records, {}));
    assert Send(c, s0, s1);
    run := [s0];
    RunExtend(c, run, s1);
    run := run + [s1];
  }

  /** A three- or four-step run that breaks the promise of any configuration outside `Guaranteed`. */
  lemma UnsafeRun(c: Config, p: Payload) returns (run: seq<State>)
    requires !Guaranteed(c)
    ensures IsRun(c, run) && !Safe(c, run[|run| - 1])
  {
    var log := [p, p];
    var records := Slice(log, 0, 2);
    run := FirstRound(c, p, records);
    var sent := run[|run| - 1];
    if c.total > 0 {
      var acked := sent.(standbys := sent.standbys[0 := log], round := Waiting(records, {0}));
      FirstStandbyAcks(c, sent, acked, records, log);
      RunExtend(c, run, acked);
      run, sent := run + [acked], acked;
    }
    var done := sent.(round := Idle, pushSeq := 1, replicated := 1);
    UnsafeAdvance(c, sent, done, records);
    RunExtend(c, run, done);
    run := run + [done];
  }

  /** With at most the first standby's acknowledgement the loop moves on all the same. */
  lemma UnsafeAdvance(c: Config, s: State, s': State, records: seq<Wire>)
    requires !Guaranteed(c) && |s.standbys| == c.total && |records| == 2 && records[1].gid == 1
    requires s.round == Waiting(records, if c.total == 0 then {} else {0}) && s.pushSeq == s.replicated == 0
    requires forall i :: 0 < i < |s.standbys| ==> s.standbys[i] == []
    requires s' == s.(round := Idle, pushSeq := 1, replicated := 1)
    ensures Next(c, s, s') && !Safe(c, s')
  {
    assert Conclude(c, s, s');
    assert Holders(s', 1) <= {0};
    SubsetSize(Holders(s', 1), {0});
    assert c.total == 0 ==> Holders(s', 1) == {};
  }

  lemma FirstStandbyAcks(c: Config, s: State, s': State, records: seq<Wire>, log: seq<Payload>)
    requires 0 < |s.standbys| && s.standbys[0] == [] && |log| == 2 && records == Slice(log, 0, 2)
    requires records in s.network && s.round == Waiting(records, {})
    requires s' == s.(standbys := s.standbys[0 := log], round := Waiting(records, {0}))
    ensures Next(c, s, s')
  {
    assert records[0] == Wire(0, log[0]) && records[1] == Wire(1, log[1]);
    assert s.round.acked + {0} == {0};
    assert Deliver(c, s, s', 0, records, Ack(1), true);
  }

  /** Over all runs, the replicated cursor is backed by the required standbys exactly in `Guaranteed` configurations. */
  lemma SafeIffGuaranteed(c: Config, p: Payload)
    ensures Guaranteed(c) <==> forall run :: IsRun(c, run) ==> Safe(c, run[|run| - 1])
  {
    if Guaranteed(c) {
      forall run | IsRun(c, run)
        ensures Safe(c, run[|run| - 1])
      {
        RunKeepsInv(c, run, |run| - 1);
      }
    } else {
      var run := UnsafeRun(c, p);
    }
  }

  /** Whatever the configuration, with standbys connected the cursor is backed by at least one of them. */
  lemma {:induction false} AtLeastOneHolder(c: Config, run: seq<State>, k: nat)
    requires IsRun(c, run) && k < |run| && c.total > 0
    ensures run[k].replicated > 0 ==> Holders(run[k], run[k].replicated) != {}
  {
    if k > 0 {
      AtLeastOneHolder(c, run, k - 1);
      RunKeepsInv(c, run, k - 1);
      assert Next(c, run[k - 1], run[k]);
      NextKeepsInv(c, run[k - 1], run[k]);
      var s, s' := run[k - 1], run[k];
      if s'.replicated != s.replicated {
        assert Conclude(c, s, s');
        assert s.round.acked <= Holders(s, s'.replicated) <= Holders(s', s'.replicated);
      }
    }
  }

  // ── Standbys that once followed another primary ────────────────────────────

  ghost predicate Agrees(log: seq<Payload>, primary: seq<Payload>, upTo: nat)
  {
    forall i :: 0 <= i < |log| && i < |primary| && i < upTo ==> log[i] == primary[i]
  }

  /**
   An acknowledged batch means the standby agrees with the primary up to its last record exactly
   when it agreed on what it already had: ids it knows are skipped without being compared.
   */
  lemma AckMeansAgreementIff(primary: seq<Payload>, from: nat, to: nat, before: seq<Payload>, after: seq<Payload>, response: Response)
    requires from < to <= |primary|
    requires SyncEffect(before, Slice(primary, from, to), after, response) && response.Ack?
    ensures |after| >= to
    ensures Agrees(after, primary, to) <==> Agrees(before, primary, to)
  {
    var records := Slice(primary, from, to);
    assert records[|records| - 1].gid == to - 1;
    if Agrees(before, primary, to) {
      forall i | 0 <= i < |after| && i < to
        ensures after[i] == primary[i]
      {
        if i >= |before| {
          assert Wire(i, after[i]) in records;
        }
      }
    } else {
      var i :| 0 <= i < |before| && i < |primary| && i < to && before[i] != primary[i];
      assert after[i] == before[i];
    }
  }
}
