/**
 The quota under concurrent requests.

 An append checks the tracked usage, stores its record and counts it in three separate steps; a
 delete stores its tombstone and resets the count in two.  One stream with one limit; a request's
 weight is 1 for the record limit, or its size for the byte limit.
 */
module QuotaRace {
  /** A stored record not counted yet; `live` until a tombstone is stored after it. */
  datatype Pending = Pending(weight: nat, live: bool)

  /** `live`: what a recount would give; `tracked`: the counter; `checked`: requests that passed the check. */
  datatype State = State(live: nat, tracked: nat, checked: seq<nat>, stored: seq<Pending>)

  datatype Event =
    | Check(weight: nat)
    | Fail(i: nat)
    | Store(i: nat)
    | Count(i: nat)
    | Tombstone
    | Reset
    | Restart

  function Without<T>(s: seq<T>, i: nat): (r: seq<T>)
    requires i < |s|
    ensures |r| == |s| - 1
  {
    s[..i] + s[i + 1..]
  }

  function AllDead(stored: seq<Pending>): (dead: seq<Pending>)
    ensures |dead| == |stored| && forall i :: 0 <= i < |dead| ==> dead[i] == stored[i].(live := false)
  {
    seq(|stored|, i requires 0 <= i < |stored| => stored[i].(live := false))
  }

  ghost predicate Next(st: State, e: Event, limit: nat, st': State)
  {
    match e
    case Check(w) => st.tracked + w <= limit && st' == st.(checked := st.checked + [w])
    case Fail(i) => i < |st.checked| && st' == st.(checked := Without(st.checked, i))
    case Store(i) =>
      && i < |st.checked|
      && st' == st.(live := st.live + st.checked[i], checked := Without(st.checked, i), stored := st.stored + [Pending(st.checked[i], true)])
    case Count(i) =>
      && i < |st.stored|
      && st' == st.(tracked := st.tracked + st.stored[i].weight, stored := Without(st.stored, i))
    case Tombstone => st' == st.(live := 0, stored := AllDead(st.stored))
    case Reset => st' == st.(tracked := 0)
    case Restart => st' == State(st.live, st.live, [], [])
  }

  ghost predicate StepAt(run: seq<State>, events: seq<Event>, limit: nat, k: nat)
    requires |run| == |events| + 1 && k < |events|
  {
    Next(run[k], events[k], limit, run[k + 1])
  }

  ghost predicate IsRun(run: seq<State>, events: seq<Event>, limit: nat)
  {
    |run| == |events| + 1 && run[0] == State(0, 0, [], []) && forall k :: 0 <= k < |events| ==> StepAt(run, events, limit, k)
  }

  // ── Sums ───────────────────────────────────────────────────────────────────

  function Sum(s: seq<nat>): (n: nat)
  {
    if s == [] then 0 else Sum(s[..|s| - 1]) + s[|s| - 1]
  }

  function Weights(stored: seq<Pending>): (w: seq<nat>)
    ensures |w| == |stored| && forall i :: 0 <= i < |w| ==> w[i] == stored[i].weight
  {
    seq(|stored|, i requires 0 <= i < |stored| => stored[i].weight)
  }

  function LiveWeights(stored: seq<Pending>): (w: seq<nat>)
    ensures |w| == |stored| && forall i :: 0 <= i < |w| ==> w[i] == if stored[i].live then stored[i].weight else 0
  {
    seq(|stored|, i requires 0 <= i < |stored| => if stored[i].live then stored[i].weight else 0)
  }

  /** Live but not counted yet. */
  function Uncounted(st: State): (n: nat)
  {
    Sum(LiveWeights(st.stored))
  }

  lemma SumMore(s: seq<nat>, x: nat)
    ensures Sum(s + [x]) == Sum(s) + x
  {
    assert (s + [x])[..|s|] == s;
  }

  lemma {:induction false} SumWithout(s: seq<nat>, i: nat)
    requires i < |s|
    ensures Sum(Without(s, i)) + s[i] == Sum(s)
  {
    var last := |s| - 1;
    if i == last {
      assert Without(s, i) == s[..last];
    } else {
      SumWithout(s[..last], i);
      assert Without(s, i) == Without(s[..last], i) + [s[last]];
      SumMore(Without(s[..last], i), s[last]);
    }
  }

  lemma {:induction false} SumAtMost(s: seq<nat>, most: nat)
    requires forall i :: 0 <= i < |s| ==> s[i] <= most
    ensures Sum(s) <= |s| * most
  {
    if s != [] {
      SumAtMost(s[..|s| - 1], most);
      assert |s| * most == (|s| - 1) * most + most;
    }
  }

  lemma {:induction false} SumZero(s: seq<nat>)
    requires forall i :: 0 <= i < |s| ==> s[i] == 0
    ensures Sum(s) == 0
  {
    if s != [] {
      SumZero(s[..|s| - 1]);
    }
  }

  lemma StoredMore(stored: seq<Pending>, w: nat)
    ensures Sum(Weights(stored + [Pending(w, true)])) == Sum(Weights(stored)) + w
    ensures Sum(LiveWeights(stored + [Pending(w, true)])) == Sum(LiveWeights(stored)) + w
  {
    var more := stored + [Pending(w, true)];
    assert Weights(more) == Weights(stored) + [w] && LiveWeights(more) == LiveWeights(stored) + [w];
    SumMore(Weights(stored), w);
    SumMore(LiveWeights(stored), w);
  }

  lemma StoredLess(stored: seq<Pending>, i: nat)
    requires i < |stored|
    ensures Sum(Weights(Without(stored, i))) + stored[i].weight == Sum(Weights(stored))
    ensures Sum(LiveWeights(Without(stored, i))) + (if stored[i].live then stored[i].weight else 0) == Sum(LiveWeights(stored))
  {
    assert Weights(Without(stored, i)) == Without(Weights(stored), i);
    assert LiveWeights(Without(stored, i)) == Without(LiveWeights(stored), i);
    SumWithout(Weights(stored), i);
    SumWithout(LiveWeights(stored), i);
  }

  // ── How far the limit can be exceeded ──────────────────────────────────────

  /** At most `m` requests are under way, none heavier than `most`. */
  ghost predicate Few(st: State, m: nat, most: nat)
  {
    && |st.checked| + |st.stored| <= m
    && (forall i :: 0 <= i < |st.checked| ==> st.checked[i] <= most)
    && (forall i :: 0 <= i < |st.stored| ==> st.stored[i].weight <= most)
  }

  /** No append was both stored and counted between a delete's tombstone and its reset. */
  ghost predicate Tidy(st: State, e: Event)
  {
    e.Reset? ==> st.live == Uncounted(st)
  }

  /** What the counter will come to once every request under way has ended. */
  function Committed(st: State): (n: nat)
  {
    st.tracked + Sum(st.checked) + Sum(Weights(st.stored))
  }

  /** The live weight that neither the counter nor a request under way accounts for. */
  function Missing(st: State): (n: nat)
  {
    if st.live > st.tracked + Uncounted(st) then st.live - st.tracked - Uncounted(st) else 0
  }

  /**
   Requests under way have passed the check and come to at most `bound`, and at most `hidden` is
   missing; or a restart has counted everything there was.
   */
  ghost predicate Inv(st: State, bound: nat, hidden: nat)
  {
    || (Committed(st) <= bound && Missing(st) <= hidden)
    || (st.checked == [] && st.stored == [] && Missing(st) == 0 && st.live <= hidden + bound)
  }

  lemma InvBounds(st: State, bound: nat, hidden: nat)
    requires Inv(st, bound, hidden)
    ensures st.live <= hidden + bound
  {
    LiveAtMost(st.stored);
  }

  /** The share of the requests under way in `Committed`. */
  lemma UnderWay(st: State, m: nat, most: nat)
    requires Few(st, m, most)
    ensures Sum(st.checked) + Sum(Weights(st.stored)) <= (|st.checked| + |st.stored|) * most
  {
    SumAtMost(st.checked, most);
    SumAtMost(Weights(st.stored), most);
    assert |st.checked| * most + |st.stored| * most == (|st.checked| + |st.stored|) * most;
  }

  lemma {:induction false} LiveAtMost(stored: seq<Pending>)
    ensures Sum(LiveWeights(stored)) <= Sum(Weights(stored))
  {
    if stored != [] {
      var last := |stored| - 1;
      LiveAtMost(stored[..last]);
      assert Weights(stored)[..last] == Weights(stored[..last]) && LiveWeights(stored)[..last] == LiveWeights(stored[..last]);
    }
  }

  lemma CheckKeepsBound(st: State, w: nat, limit: nat, st': State, m: nat, most: nat)
    requires m > 0 && Next(st, Check(w), limit, st') && Few(st', m, most)
    ensures Committed(st') <= limit + (m - 1) * most
  {
    assert forall i :: 0 <= i < |st.checked| ==> st'.checked[i] == st.checked[i];
    UnderWay(st, m, most);
    SumMore(st.checked, w);
    AtMost(|st.checked| + |st.stored|, m - 1, most);
  }

  lemma AtMost(a: nat, b: nat, x: nat)
    requires a <= b
    ensures a * x <= b * x
  {
  }

  /** Untidy resets since the last tombstone, counted up to step `k`. */
  ghost function Untidy(run: seq<State>, events: seq<Event>, k: nat): (n: nat)
    requires k <= |events| < |run|
  {
    if k == 0 || events[k - 1].Tombstone? then 0
    else Untidy(run, events, k - 1) + if Tidy(run[k - 1], events[k - 1]) then 0 else 1
  }

  /** What a step may hide more. */
  ghost function Hides(st: State, e: Event, bound: nat, hidden: nat): (n: nat)
  {
    if e.Tombstone? then 0 else if Tidy(st, e) then hidden else hidden + bound
  }

  lemma NextKeepsInv(st: State, e: Event, limit: nat, st': State, bound: nat, hidden: nat)
    requires Inv(st, bound, hidden) && Next(st, e, limit, st') && (e.Check? ==> Committed(st') <= bound)
    ensures Inv(st', bound, Hides(st, e, bound, hidden))
  {
    match e
    case Check(w) =>
    case Fail(i) => SumWithout(st.checked, i);
    case Store(i) =>
      SumWithout(st.checked, i);
      StoredMore(st.stored, st.checked[i]);
    case Count(i) => StoredLess(st.stored, i);
    case Tombstone => assert Weights(st'.stored) == Weights(st.stored);
    case Reset => InvBounds(st, bound, hidden);
    case Restart => InvBounds(st, bound, hidden);
  }

  /** What the steps up to `k` may have hidden. */
  ghost function Hidden(run: seq<State>, events: seq<Event>, bound: nat, k: nat): (n: nat)
    requires k <= |events| < |run|
  {
    if k == 0 then 0 else Hides(run[k - 1], events[k - 1], bound, Hidden(run, events, bound, k - 1))
  }

  lemma {:induction false} RunKeepsInv(run: seq<State>, events: seq<Event>, limit: nat, k: nat, bound: nat)
    requires IsRun(run, events, limit) && k < |run|
    requires forall i :: 0 <= i < k && events[i].Check? ==> Committed(run[i + 1]) <= bound
    ensures Inv(run[k], bound, Hidden(run, events, bound, k))
  {
    if k > 0 {
      RunKeepsInv(run, events, limit, k - 1, bound);
      assert StepAt(run, events, limit, k - 1);
      NextKeepsInv(run[k - 1], events[k - 1], limit, run[k], bound, Hidden(run, events, bound, k - 1));
    }
  }

  lemma {:induction false} HiddenIs(run: seq<State>, events: seq<Event>, bound: nat, k: nat)
    requires k <= |events| < |run|
    ensures Hidden(run, events, bound, k) == Untidy(run, events, k) * bound
  {
    if k > 0 {
      HiddenIs(run, events, bound, k - 1);
      OneMore(Untidy(run, events, k - 1), bound);
    }
  }

  lemma OneMore(n: nat, bound: nat)
    ensures (n + 1) * bound == n * bound + bound
  {
  }

  /**
   In every state of every run with at most `m` requests at a time: each reset since the last
   tombstone that erased a count lets as much through again as the limit and all but one of them.
   */
  lemma OvershootBounded(run: seq<State>, events: seq<Event>, limit: nat, k: nat, m: nat, most: nat, bound: nat)
    requires m > 0 && IsRun(run, events, limit) && k < |run| && bound == limit + (m - 1) * most
    requires forall i :: 0 <= i <= k ==> Few(run[i], m, most)
    ensures run[k].live <= (Untidy(run, events, k) + 1) * bound
  {
    forall i | 0 <= i < k && events[i].Check?
      ensures Committed(run[i + 1]) <= bound
    {
      assert StepAt(run, events, limit, i);
      CheckKeepsBound(run[i], events[i].weight, limit, run[i + 1], m, most);
    }
    RunKeepsInv(run, events, limit, k, bound);
    InvBounds(run[k], bound, Hidden(run, events, bound, k));
    HiddenIs(run, events, bound, k);
    OneMore(Untidy(run, events, k), bound);
  }

  // ── The bound is reached ───────────────────────────────────────────────────

  function Copies<T>(x: T, n: nat): (s: seq<T>)
    ensures |s| == n && forall i :: 0 <= i < n ==> s[i] == x
  {
    seq(n, i => x)
  }

  lemma {:induction false} UntidyPrefix(run: seq<State>, events: seq<Event>, e: Event, st: State, k: nat)
    requires |run| == |events| + 1 && k <= |events|
    ensures Untidy(run + [st], events + [e], k) == Untidy(run, events, k)
  {
    if k > 0 {
      UntidyPrefix(run, events, e, st, k - 1);
    }
  }

  /** A run of at most `m` requests of weight `most` at a time, with `u` untidy resets, that ends in `st`. */
  ghost predicate Reached(run: seq<State>, events: seq<Event>, limit: nat, m: nat, most: nat, u: nat, st: State)
  {
    && IsRun(run, events, limit) && run[|events|] == st && Untidy(run, events, |events|) == u
    && forall i :: 0 <= i < |run| ==> Few(run[i], m, most)
  }

  lemma RunExtend(run: seq<State>, events: seq<Event>, limit: nat, e: Event, st: State)
    requires IsRun(run, events, limit) && Next(run[|events|], e, limit, st)
    ensures IsRun(run + [st], events + [e], limit)
  {
    var run', events' := run + [st], events + [e];
    forall k | 0 <= k < |events'|
      ensures StepAt(run', events', limit, k)
    {
      if k < |events| {
        assert StepAt(run, events, limit, k);
      }
    }
  }

  lemma Extend(before: seq<State>, past: seq<Event>, limit: nat, m: nat, most: nat, u: nat, a: State, e: Event, b: State)
    returns (run: seq<State>, events: seq<Event>)
    requires Reached(before, past, limit, m, most, u, a) && Next(a, e, limit, b) && Few(b, m, most) && !e.Tombstone?
    ensures Reached(run, events, limit, m, most, if Tidy(a, e) then u else u + 1, b)
  {
    RunExtend(before, past, limit, e, b);
    UntidyPrefix(before, past, e, b, |past|);
    run, events := before + [b], past + [e];
  }

  /** `n` requests of the limit's own weight pass the check together, are stored and counted. */
  lemma Round(before: seq<State>, past: seq<Event>, limit: nat, n: nat, u: nat, live: nat) returns (run: seq<State>, events: seq<Event>)
    requires Reached(before, past, limit, n, limit, u, State(live, 0, [], []))
    ensures Reached(run, events, limit, n, limit, u, State(live + n * limit, n * limit, [], []))
  {
    run, events := AllCheck(before, past, limit, n, u, live);
    run, events := AllStore(run, events, limit, n, u, live);
    run, events := AllCount(run, events, limit, n, u, live + n * limit);
  }

  lemma AllCheck(before: seq<State>, past: seq<Event>, limit: nat, n: nat, u: nat, live: nat) returns (run: seq<State>, events: seq<Event>)
    requires Reached(before, past, limit, n, limit, u, State(live, 0, [], []))
    ensures Reached(run, events, limit, n, limit, u, State(live, 0, Copies(limit, n), []))
  {
    run, events := before, past;
    assert Copies(limit, 0) == [];
    var i := 0;
    while i < n
      invariant i <= n && Reached(run, events, limit, n, limit, u, State(live, 0, Copies(limit, i), []))
    {
      assert Copies(limit, i) + [limit] == Copies(limit, i + 1);
      run, events := Extend(run, events, limit, n, limit, u, State(live, 0, Copies(limit, i), []), Check(limit), State(live, 0, Copies(limit, i + 1), []));
      i := i + 1;
    }
  }

  lemma AllStore(before: seq<State>, past: seq<Event>, limit: nat, n: nat, u: nat, live: nat) returns (run: seq<State>, events: seq<Event>)
    requires Reached(before, past, limit, n, limit, u, State(live, 0, Copies(limit, n), []))
    ensures Reached(run, events, limit, n, limit, u, State(live + n * limit, 0, [], Copies(Pending(limit, true), n)))
  {
    run, events := before, past;
    assert Copies(Pending(limit, true), 0) == [] && Copies(limit, 0) == [];
    var i := 0;
    while i < n
      invariant i <= n
      invariant Reached(run, events, limit, n, limit, u, State(live + i * limit, 0, Copies(limit, n - i), Copies(Pending(limit, true), i)))
    {
      var a := State(live + i * limit, 0, Copies(limit, n - i), Copies(Pending(limit, true), i));
      var b := State(live + (i + 1) * limit, 0, Copies(limit, n - i - 1), Copies(Pending(limit, true), i + 1));
      assert Without(a.checked, 0) == b.checked && a.stored + [Pending(limit, true)] == b.stored;
      OneMore(i, limit);
      run, events := Extend(run, events, limit, n, limit, u, a, Store(0), b);
      i := i + 1;
    }
  }

  lemma AllCount(before: seq<State>, past: seq<Event>, limit: nat, n: nat, u: nat, live: nat) returns (run: seq<State>, events: seq<Event>)
    requires Reached(before, past, limit, n, limit, u, State(live, 0, [], Copies(Pending(limit, true), n)))
    ensures Reached(run, events, limit, n, limit, u, State(live, n * limit, [], []))
  {
    run, events := before, past;
    assert Copies(Pending(limit, true), 0) == [];
    var i := 0;
    while i < n
      invariant i <= n && Reached(run, events, limit, n, limit, u, State(live, i * limit, [], Copies(Pending(limit, true), n - i)))
    {
      var a := State(live, i * limit, [], Copies(Pending(limit, true), n - i));
      var b := State(live, (i + 1) * limit, [], Copies(Pending(limit, true), n - i - 1));
      assert Without(a.stored, 0) == b.stored;
      OneMore(i, limit);
      run, events := Extend(run, events, limit, n, limit, u, a, Count(0), b);
      i := i + 1;
    }
  }

  /** The tombstones of `u` deletes are stored before any of their resets. */
  lemma Tombstones(limit: nat, n: nat, u: nat) returns (run: seq<State>, events: seq<Event>)
    ensures Reached(run, events, limit, n, limit, 0, State(0, 0, [], []))
    ensures |events| == u && forall i :: 0 <= i < u ==> events[i] == Tombstone
  {
    run, events := [State(0, 0, [], [])], [];
    var i := 0;
    while i < u
      invariant i <= u && |events| == i && Reached(run, events, limit, n, limit, 0, State(0, 0, [], []))
      invariant forall j :: 0 <= j < i ==> events[j] == Tombstone
    {
      var st := State(0, 0, [], []);
      assert AllDead([]) == [];
      RunExtend(run, events, limit, Tombstone, st);
      run, events, i := run + [st], events + [Tombstone], i + 1;
    }
  }

  /**
   The bound of `OvershootBounded` is reached, for every limit, number of requests and number of untidy
   resets: rounds of `n` requests of the limit's own weight, with the reset of a delete after each.
   */
  lemma OvershootReached(limit: nat, n: nat, u: nat) returns (run: seq<State>, events: seq<Event>, bound: nat)
    requires n > 0 && limit > 0
    ensures bound == limit + (n - 1) * limit
    ensures Reached(run, events, limit, n, limit, u, State((u + 1) * bound, bound, [], []))
  {
    bound := n * limit;
    OneMore(n - 1, limit);
    run, events := Tombstones(limit, n, u);
    run, events := Round(run, events, limit, n, 0, 0);
    var i := 0;
    while i < u
      invariant i <= u && bound == n * limit && bound > 0
      invariant Reached(run, events, limit, n, limit, i, State((i + 1) * bound, bound, [], []))
    {
      run, events := Again(run, events, limit, n, i, (i + 1) * bound, bound);
      OneMore(i + 1, bound);
      i := i + 1;
    }
  }

  /** A reset erases the count of what is live, and another round passes. */
  lemma Again(before: seq<State>, past: seq<Event>, limit: nat, n: nat, u: nat, live: nat, bound: nat) returns (run: seq<State>, events: seq<Event>)
    requires Reached(before, past, limit, n, limit, u, State(live, bound, [], [])) && bound == n * limit && live > 0
    ensures Reached(run, events, limit, n, limit, u + 1, State(live + bound, bound, [], []))
  {
    run, events := Extend(before, past, limit, n, limit, u, State(live, bound, [], []), Reset, State(live, 0, [], []));
    run, events := Round(run, events, limit, n, u + 1, live);
  }

  // ── How far the counter can drift ──────────────────────────────────────────

  /** Counter minus what has been counted of the live records. */
  function Drift(st: State): (d: int)
  {
    st.tracked - (st.live - Uncounted(st))
  }

  /** What a step adds to the drift. */
  function Added(st: State, e: Event): (d: int)
  {
    match e
    case Count(i) => if i < |st.stored| && !st.stored[i].live then st.stored[i].weight else 0
    case Tombstone => st.live - Uncounted(st)
    case Reset => 0 - st.tracked
    case Restart => 0 - Drift(st)
    case _ => 0
  }

  lemma NextDrift(st: State, e: Event, limit: nat, st': State)
    requires Next(st, e, limit, st')
    ensures Drift(st') == Drift(st) + Added(st, e)
  {
    match e
    case Store(i) => StoredMore(st.stored, st.checked[i]);
    case Count(i) => StoredLess(st.stored, i);
    case Tombstone => SumZero(LiveWeights(st'.stored));
    case _ =>
  }

  /** No step of a delete and no restart from `r` to `k`. */
  ghost predicate NoDelete(events: seq<Event>, r: nat, k: nat)
    requires k <= |events|
  {
    forall i :: r <= i < k ==> !events[i].Tombstone? && !events[i].Reset? && !events[i].Restart?
  }

  /** Some record that a tombstone had already covered is counted between `r` and `k`. */
  ghost predicate StaleCount(run: seq<State>, events: seq<Event>, r: nat, k: nat)
    requires k <= |events| < |run|
  {
    exists i :: r <= i < k && Added(run[i], events[i]) > 0
  }

  lemma {:induction false} DriftSince(run: seq<State>, events: seq<Event>, limit: nat, r: nat, k: nat)
    requires IsRun(run, events, limit) && r <= k < |run| && NoDelete(events, r, k)
    ensures Drift(run[k]) >= Drift(run[r])
    ensures Drift(run[k]) == Drift(run[r]) <==> !StaleCount(run, events, r, k)
  {
    if r < k {
      DriftSince(run, events, limit, r, k - 1);
      assert StepAt(run, events, limit, k - 1);
      NextDrift(run[k - 1], events[k - 1], limit, run[k]);
    }
  }

  /**
   A delete's reset leaves the counter right exactly when it is tidy; from then until the next delete
   it stays right exactly while no record stored before the tombstone is counted late.
   */
  lemma ExactIff(run: seq<State>, events: seq<Event>, limit: nat, r: nat, k: nat)
    requires IsRun(run, events, limit) && r < k < |run| && events[r].Reset? && NoDelete(events, r + 1, k)
    ensures Drift(run[r + 1]) == 0 <==> Tidy(run[r], events[r])
    ensures Tidy(run[r], events[r]) ==> (Drift(run[k]) == 0 <==> !StaleCount(run, events, r + 1, k))
  {
    assert StepAt(run, events, limit, r);
    DriftSince(run, events, limit, r + 1, k);
  }

  /** An append stored before the tombstone and counted after the reset: one record counted, none live. */
  lemma StraddledDelete() returns (run: seq<State>, events: seq<Event>)
    ensures IsRun(run, events, 1) && run[|events|] == State(0, 1, [], []) && Drift(run[|events|]) == 1
  {
    run, events := [State(0, 0, [], [])], [];
    run, events := AllCheck(run, events, 1, 1, 0, 0);
    run, events := AllStore(run, events, 1, 1, 0, 0);
    assert Copies(Pending(1, true), 1) == [Pending(1, true)];
    var dead := State(0, 0, [], [Pending(1, false)]);
    assert AllDead([Pending(1, true)]) == [Pending(1, false)] && Without([Pending(1, false)], 0) == [];
    RunExtend(run, events, 1, Tombstone, dead);
    run, events := run + [dead], events + [Tombstone];
    RunExtend(run, events, 1, Reset, dead);
    run, events := run + [dead], events + [Reset];
    RunExtend(run, events, 1, Count(0), State(0, 1, [], []));
    run, events := run + [State(0, 1, [], [])], events + [Count(0)];
  }
}
