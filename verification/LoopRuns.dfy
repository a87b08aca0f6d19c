/**
 Whole runs of the committer loop with producers at work: when it is stuck.
 */
module LoopRuns {
  import opened Committer
  import opened CommitLoop

  datatype LoopEvent = Turn(x: Weather) | Claimed(s: nat) | Published(s: nat, upTo: nat)

  ghost predicate LoopStep(trigger: Trigger, st: LoopState, e: LoopEvent, st': LoopState)
  {
    match e
    case Turn(x) => PassStep(trigger, st.w, st.current, x, st'.w, st'.current)
    case Claimed(s) => Next(st.w, Claim(s), st'.w) && st'.current == st.current
    case Published(s, upTo) =>
      s < |st.w| && upTo > st.w[s].avail && Next(st.w, Publish(s, upTo), st'.w) && st'.current == st.current
  }

  ghost predicate LoopAt(trigger: Trigger, run: seq<LoopState>, events: seq<LoopEvent>, k: nat)
    requires |run| == |events| + 1 && k < |events|
  {
    LoopStep(trigger, run[k], events[k], run[k + 1])
  }

  ghost predicate LoopRun(trigger: Trigger, run: seq<LoopState>, events: seq<LoopEvent>)
  {
    && |run| == |events| + 1 && run[0].current < |run[0].w| && Lined(run[0].w)
    && forall k :: 0 <= k < |events| ==> LoopAt(trigger, run, events, k)
  }

  lemma {:induction false} RunLined(trigger: Trigger, run: seq<LoopState>, events: seq<LoopEvent>, k: nat)
    requires LoopRun(trigger, run, events) && k < |run|
    ensures run[k].current < |run[k].w| && Lined(run[k].w)
  {
    if k > 0 {
      RunLined(trigger, run, events, k - 1);
      assert LoopAt(trigger, run, events, k - 1);
      LoopLined(trigger, run[k - 1], events[k - 1], run[k]);
    }
  }

  lemma LoopLined(trigger: Trigger, st: LoopState, e: LoopEvent, st': LoopState)
    requires LoopStep(trigger, st, e, st') && st.current < |st.w| && Lined(st.w)
    ensures st'.current < |st'.w| && Lined(st'.w)
  {
    match e
    case Turn(x) => PassLined(trigger, st.w, st.current, x, st'.w, st'.current);
    case Claimed(s) => StepLined(st.w, Claim(s), st'.w);
    case Published(s, upTo) => StepLined(st.w, Publish(s, upTo), st'.w);
  }

  ghost predicate StuckIn(trigger: Trigger, st: LoopState)
  {
    st.current < |st.w| && StuckAt(trigger, st.w, st.current)
  }

  ghost predicate StrandedAt(trigger: Trigger, run: seq<LoopState>, events: seq<LoopEvent>, j: nat)
    requires |run| == |events| + 1 && j < |events|
  {
    events[j].Turn? && run[j].current < |run[j].w| && Stranded(trigger, run[j].w, run[j].current, events[j].x, run[j + 1].current)
  }

  /** A pass stranded the loop and nothing has been published since. */
  ghost predicate StrandedSince(trigger: Trigger, run: seq<LoopState>, events: seq<LoopEvent>, k: nat)
    requires |run| == |events| + 1 && k <= |events|
  {
    exists j :: 0 <= j < k && StrandedAt(trigger, run, events, j) && forall i :: j < i < k ==> !events[i].Published?
  }

  lemma LoopStuckIff(trigger: Trigger, st: LoopState, e: LoopEvent, st': LoopState)
    requires LoopStep(trigger, st, e, st') && st.current < |st.w| && Lined(st.w) && Matched(trigger) && !trigger.durability.AsyncMode?
    ensures StuckIn(trigger, st') <==>
            || (StuckIn(trigger, st) && !e.Published?)
            || (e.Turn? && Stranded(trigger, st.w, st.current, e.x, st'.current))
  {
    match e
    case Turn(x) =>
      PassStuckIff(trigger, st.w, st.current, x, st'.w, st'.current);
    case Claimed(s) =>
      assert forall t :: 0 <= t < |st.w| ==> st'.w[t].committed == st.w[t].committed && st'.w[t].durable == st.w[t].durable && st'.w[t].avail == st.w[t].avail;
      SameStuck(trigger, st.w, st'.w, st.current);
    case Published(s, upTo) =>
      assert HasWork(st'.w[s]);
  }

  lemma SameStuck(trigger: Trigger, w: seq<Shard>, w': seq<Shard>, current: nat)
    requires current < |w| == |w'|
    requires forall t :: 0 <= t < |w| ==> w'[t].committed == w[t].committed && w'[t].durable == w[t].durable && w'[t].avail == w[t].avail
    ensures StuckAt(trigger, w, current) <==> StuckAt(trigger, w', current)
  {
    assert forall t :: 0 <= t < |w| ==> (HasWork(w[t]) <==> HasWork(w'[t])) && (Unsynced(w[t]) <==> Unsynced(w'[t]));
    if t :| 0 <= t < |w| && Unsynced(w[t]) {
      assert Unsynced(w'[t]);
    }
  }

  /** Over any run with any producers, the loop is stuck if and only if some pass stranded it and nothing was published since. */
  lemma {:induction false} StuckIff(trigger: Trigger, run: seq<LoopState>, events: seq<LoopEvent>, k: nat)
    requires LoopRun(trigger, run, events) && k < |run| && Matched(trigger) && !trigger.durability.AsyncMode?
    requires !StuckIn(trigger, run[0])
    ensures StuckIn(trigger, run[k]) <==> StrandedSince(trigger, run, events, k)
  {
    if k > 0 {
      StuckIff(trigger, run, events, k - 1);
      RunLined(trigger, run, events, k - 1);
      assert LoopAt(trigger, run, events, k - 1);
      LoopStuckIff(trigger, run[k - 1], events[k - 1], run[k]);
      SinceStep(trigger, run, events, k);
    }
  }

  lemma SinceStep(trigger: Trigger, run: seq<LoopState>, events: seq<LoopEvent>, k: nat)
    requires |run| == |events| + 1 && 0 < k <= |events|
    ensures StrandedSince(trigger, run, events, k) <==>
            || (StrandedSince(trigger, run, events, k - 1) && !events[k - 1].Published?)
            || StrandedAt(trigger, run, events, k - 1)
  {
    if StrandedAt(trigger, run, events, k - 1) {
      assert StrandedSince(trigger, run, events, k);
    } else if StrandedSince(trigger, run, events, k) {
      var j :| 0 <= j < k && StrandedAt(trigger, run, events, j) && forall i :: j < i < k ==> !events[i].Published?;
      assert j < k - 1;
    }
  }
}
