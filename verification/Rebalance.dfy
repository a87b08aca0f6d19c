/**
 Sticky shard assignment of one consumer group.

 A group hands every shard `0 .. numShards` to exactly one member.  A join or a leave keeps as
 many shards as possible where they are: a member gives up shards only above its fair share and
 receives shards only below it.
 */
module Rebalance {
  import opened Arith
  import opened Sorting

  type Assignment = map<string, seq<nat>>

  // ── What the members hold ──────────────────────────────────────────────────

  function Held(asg: Assignment, id: string): (shards: seq<nat>)
  {
    if id in asg then asg[id] else []
  }

  ghost predicate Distinct(members: seq<string>)
  {
    forall i, j :: 0 <= i < j < |members| ==> members[i] != members[j]
  }

  /** Each of `0 .. n` once. */
  ghost function RangeBag(n: nat): (bag: multiset<nat>)
    ensures |bag| == n
  {
    if n == 0 then multiset{} else RangeBag(n - 1) + multiset{n - 1}
  }

  lemma {:induction false} RangeBagCount(n: nat, s: nat)
    ensures RangeBag(n)[s] == if s < n then 1 else 0
  {
    if n > 0 {
      RangeBagCount(n - 1, s);
    }
  }

  /** All shards held by `members`, with multiplicity. */
  ghost function Holdings(asg: Assignment, members: seq<string>): (bag: multiset<nat>)
  {
    if members == [] then
      multiset{}
    else
      Holdings(asg, members[..|members| - 1]) + multiset(Held(asg, members[|members| - 1]))
  }

  lemma {:induction false} HoldingsFrame(asg: Assignment, members: seq<string>, id: string, v: seq<nat>)
    requires id !in members
    ensures Holdings(asg[id := v], members) == Holdings(asg, members)
  {
    if members != [] {
      HoldingsFrame(asg, members[..|members| - 1], id, v);
    }
  }

  lemma BagSwap(a: multiset<nat>, b: multiset<nat>, c: multiset<nat>, d: multiset<nat>, e: multiset<nat>)
    requires a + b == c + d
    ensures (a + e) + b == (c + e) + d
  {
    forall x
      ensures ((a + e) + b)[x] == ((c + e) + d)[x]
    {
      assert (a + b)[x] == (c + d)[x];
    }
  }

  /** Replacing one member's shards changes the total by exactly that much. */
  lemma {:induction false} HoldingsUpdate(asg: Assignment, members: seq<string>, i: nat, v: seq<nat>)
    requires Distinct(members) && i < |members|
    ensures Holdings(asg[members[i] := v], members) + multiset(Held(asg, members[i]))
            == Holdings(asg, members) + multiset(v)
  {
    var last := |members| - 1;
    var after := asg[members[i] := v];
    if i == last {
      HoldingsFrame(asg, members[..last], members[i], v);
    } else {
      HoldingsUpdate(asg, members[..last], i, v);
      assert Held(after, members[last]) == Held(asg, members[last]);
      BagSwap(Holdings(after, members[..last]), multiset(Held(asg, members[i])),
              Holdings(asg, members[..last]), multiset(v), multiset(Held(asg, members[last])));
    }
  }

  lemma {:induction false} HoldingsAgree(a: Assignment, b: Assignment, members: seq<string>)
    requires forall i :: 0 <= i < |members| ==> multiset(Held(a, members[i])) == multiset(Held(b, members[i]))
    ensures Holdings(a, members) == Holdings(b, members)
  {
    if members != [] {
      HoldingsAgree(a, b, members[..|members| - 1]);
    }
  }

  lemma {:induction false} HoldingsContain(asg: Assignment, members: seq<string>, i: nat)
    requires i < |members|
    ensures multiset(Held(asg, members[i])) <= Holdings(asg, members)
  {
    if i < |members| - 1 {
      HoldingsContain(asg, members[..|members| - 1], i);
    }
  }

  lemma {:induction false} HoldingsOwner(asg: Assignment, members: seq<string>, s: nat) returns (i: nat)
    requires s in Holdings(asg, members)
    ensures i < |members| && s in Held(asg, members[i])
  {
    i := |members| - 1;
    if s !in Held(asg, members[i]) {
      i := HoldingsOwner(asg, members[..i], s);
    }
  }

  /** Two members never hold the same shard when the total has no repetition. */
  lemma {:induction false} HoldingsDisjoint(asg: Assignment, members: seq<string>, i: nat, j: nat, s: nat)
    requires i < j < |members|
    requires s in Held(asg, members[i]) && s in Held(asg, members[j])
    ensures Holdings(asg, members)[s] >= 2
  {
    if j == |members| - 1 {
      HoldingsContain(asg, members[..j], i);
    } else {
      HoldingsDisjoint(asg, members[..|members| - 1], i, j, s);
    }
  }

  // ── Fair shares ────────────────────────────────────────────────────────────

  /** Fair share of the member at position `i` among `n`. */
  function Target(numShards: nat, n: nat, i: nat): (t: nat)
    requires n > 0
  {
    numShards / n + (if i < numShards % n then 1 else 0)
  }

  function Targets(numShards: nat, n: nat): (targets: seq<nat>)
    requires n > 0
    ensures |targets| == n
  {
    seq(n, i requires 0 <= i < n => Target(numShards, n, i))
  }

  ghost function Sum(xs: seq<nat>): (t: nat)
  {
    if xs == [] then 0 else Sum(xs[..|xs| - 1]) + xs[|xs| - 1]
  }

  lemma {:induction false} SumOfShares(xs: seq<nat>, base: nat, extra: nat)
    requires forall i :: 0 <= i < |xs| ==> xs[i] == base + if i < extra then 1 else 0
    ensures Sum(xs) == |xs| * base + Min(|xs|, extra)
  {
    if xs != [] {
      SumOfShares(xs[..|xs| - 1], base, extra);
      assert |xs| * base == (|xs| - 1) * base + base;
    }
  }

  /** The fair shares add up to the number of shards. */
  lemma TargetsCover(numShards: nat, n: nat)
    requires n > 0
    ensures Sum(Targets(numShards, n)) == numShards
  {
    SumOfShares(Targets(numShards, n), numShards / n, numShards % n);
    DivMod(numShards, n);
  }

  ghost function SumHeld(asg: Assignment, members: seq<string>): (t: nat)
    ensures t == |Holdings(asg, members)|
  {
    if members == [] then
      0
    else
      SumHeld(asg, members[..|members| - 1]) + |Held(asg, members[|members| - 1])|
  }

  function Lengths(asg: Assignment, members: seq<string>): (xs: seq<nat>)
    ensures |xs| == |members| && forall i :: 0 <= i < |members| ==> xs[i] == |Held(asg, members[i])|
  {
    seq(|members|, i requires 0 <= i < |members| => |Held(asg, members[i])|)
  }

  lemma {:induction false} SumHeldIs(asg: Assignment, members: seq<string>)
    ensures SumHeld(asg, members) == Sum(Lengths(asg, members))
  {
    if members != [] {
      var last := |members| - 1;
      SumHeldIs(asg, members[..last]);
      assert Lengths(asg, members)[..last] == Lengths(asg, members[..last]);
    }
  }

  lemma {:induction false} SumAtMost(xs: seq<nat>, ys: seq<nat>)
    requires |xs| == |ys| && forall j :: 0 <= j < |xs| ==> xs[j] <= ys[j]
    ensures Sum(xs) <= Sum(ys)
  {
    if xs != [] {
      SumAtMost(xs[..|xs| - 1], ys[..|ys| - 1]);
    }
  }

  /** Shares that are nowhere above and somewhere below add up to less. */
  lemma {:induction false} SumLess(xs: seq<nat>, ys: seq<nat>, below: nat)
    requires |xs| == |ys| && forall j :: 0 <= j < |xs| ==> xs[j] <= ys[j]
    requires below < |xs| && xs[below] < ys[below]
    ensures Sum(xs) < Sum(ys)
  {
    var last := |xs| - 1;
    if below < last {
      SumLess(xs[..last], ys[..last], below);
    } else {
      SumAtMost(xs[..last], ys[..last]);
    }
  }

  lemma QuotientShrinks(q: nat, r: nat, q': nat, r': nat, n: nat)
    requires r < n
    requires q * n + r == q' * (n + 1) + r'
    ensures q' <= q
    ensures q' == q ==> r' <= r
  {
    assert q' * (n + 1) == q' * n + q';
    if q' > q {
      MulStep(q, q', n);
    }
  }

  /** One more member never raises the share of a position. */
  lemma TargetShrinks(numShards: nat, n: nat, i: nat)
    requires n > 0
    ensures Target(numShards, n + 1, i) <= Target(numShards, n, i)
  {
    DivMod(numShards, n);
    DivMod(numShards, n + 1);
    QuotientShrinks(numShards / n, numShards % n, numShards / (n + 1), numShards % (n + 1), n);
  }

  // ── One member's part of a rebalance ───────────────────────────────────────

  /** `s` is where plain round-robin would put it. */
  predicate Home(s: nat, n: nat, idx: nat)
    requires n > 0
  {
    s % n == idx
  }

  /** What a member keeps when it is cut down to its share: home shards go last. */
  ghost predicate Trimmed(before: seq<nat>, after: seq<nat>, target: nat, n: nat, idx: nat)
    requires n > 0
  {
    && (|before| <= target ==> after == before)
    && (|before| > target ==> |after| == target && multiset(after) <= multiset(before))
    && ((forall s :: s in before && s !in after ==> !Home(s, n, idx)) || (forall s :: s in after ==> Home(s, n, idx)))
  }

  /** The promise of a sticky rebalance to one member. */
  ghost predicate Sticky(before: seq<nat>, after: seq<nat>, target: nat, n: nat, idx: nat)
    requires n > 0
  {
    && |after| == target
    && (|before| <= target ==> forall s :: s in before ==> s in after)
    && (|before| >= target ==> forall s :: s in after ==> s in before)
    && ((forall s :: s in before && s !in after ==> !Home(s, n, idx)) || (forall s :: s in after ==> Home(s, n, idx)))
  }

  /** Cuts `shards` down to `target`: foreign shards from the front, then home shards from the end. */
  method Shed(shards: seq<nat>, target: nat, n: nat, idx: nat) returns (kept: seq<nat>, shed: seq<nat>)
    requires n > 0
    ensures multiset(kept) + multiset(shed) == multiset(shards)
    ensures Trimmed(shards, kept, target, n, idx)
  {
    kept, shed := [], [];
    var surplus := if |shards| > target then |shards| - target else 0;
    for k := 0 to |shards|
      invariant multiset(kept) + multiset(shed) == multiset(shards[..k])
      invariant |kept| + |shed| == k
      invariant |shed| <= surplus
      invariant shed == [] ==> kept == shards[..k]
      invariant forall s :: s in shed ==> !Home(s, n, idx)
      invariant |shed| < surplus ==> forall s :: s in kept ==> Home(s, n, idx)
    {
      assert shards[..k + 1] == shards[..k] + [shards[k]];
      if |shed| >= surplus || Home(shards[k], n, idx) {
        kept := kept + [shards[k]];
      } else {
        shed := shed + [shards[k]];
      }
    }
    assert shards[..|shards|] == shards;
    ghost var homeless := |shed| == surplus;
    while |kept| > target
      invariant multiset(kept) + multiset(shed) == multiset(shards)
      invariant |kept| + |shed| == |shards|
      invariant |kept| >= target || surplus == 0
      invariant surplus == 0 ==> kept == shards
      invariant homeless ==> |shed| == surplus && forall s :: s in shed ==> !Home(s, n, idx)
      invariant !homeless ==> forall s :: s in kept ==> Home(s, n, idx)
    {
      var last := |kept| - 1;
      assert kept == kept[..last] + [kept[last]];
      shed := shed + [kept[last]];
      kept := kept[..last];
    }
    ShedIsTrimmed(shards, kept, shed, target, n, idx);
  }

  lemma ShedIsTrimmed(shards: seq<nat>, kept: seq<nat>, shed: seq<nat>, target: nat, n: nat, idx: nat)
    requires n > 0
    requires multiset(kept) + multiset(shed) == multiset(shards)
    requires |shards| <= target ==> kept == shards
    requires |shards| > target ==> |kept| == target
    requires (forall s :: s in shed ==> !Home(s, n, idx)) || (forall s :: s in kept ==> Home(s, n, idx))
    ensures Trimmed(shards, kept, target, n, idx)
  {
    forall s | s in shards && s !in kept
      ensures s in shed
    {
      assert s in multiset(shards);
      assert s in multiset(kept) + multiset(shed);
    }
  }

  // ── The rebalance ──────────────────────────────────────────────────────────

  ghost function MemberSet(members: seq<string>): (ids: set<string>)
  {
    set m | m in members
  }

  /** Members and free pool together have every shard exactly once. */
  ghost predicate Conserved(asg: Assignment, members: seq<string>, free: seq<nat>, numShards: nat)
  {
    Holdings(asg, members) + multiset(free) == RangeBag(numShards)
  }

  /** The shards nobody holds. */
  method CollectFree(asg: Assignment, members: seq<string>, numShards: nat) returns (free: seq<nat>)
    requires Holdings(asg, members) <= RangeBag(numShards)
    ensures Conserved(asg, members, free, numShards)
  {
    free := [];
    ghost var held := Holdings(asg, members);
    for s := 0 to numShards
      invariant forall x: nat :: multiset(free)[x] == if x < s && x !in held then 1 else 0
    {
      var taken := exists i :: 0 <= i < |members| && s in Held(asg, members[i]);
      assert taken <==> s in held by {
        if s in held {
          var i := HoldingsOwner(asg, members, s);
        }
        if i :| 0 <= i < |members| && s in Held(asg, members[i]) {
          HoldingsContain(asg, members, i);
          assert s in multiset(Held(asg, members[i]));
        }
      }
      if !taken {
        free := free + [s];
      }
    }
    FreeIsTheRest(held, free, numShards);
  }

  lemma FreeIsTheRest(held: multiset<nat>, free: seq<nat>, numShards: nat)
    requires held <= RangeBag(numShards)
    requires forall x: nat :: multiset(free)[x] == if x < numShards && x !in held then 1 else 0
    ensures held + multiset(free) == RangeBag(numShards)
  {
    forall x: nat
      ensures (held + multiset(free))[x] == RangeBag(numShards)[x]
    {
      RangeBagCount(numShards, x);
      assert held[x] <= RangeBag(numShards)[x];
    }
  }

  /** Moving `shed` from a member to the pool conserves the shards. */
  lemma MoveToPool(asg: Assignment, members: seq<string>, i: nat, kept: seq<nat>, shed: seq<nat>, free: seq<nat>, numShards: nat)
    requires Distinct(members) && i < |members|
    requires multiset(kept) + multiset(shed) == multiset(Held(asg, members[i]))
    requires Conserved(asg, members, free, numShards)
    ensures Conserved(asg[members[i] := kept], members, free + shed, numShards)
  {
    HoldingsUpdate(asg, members, i, kept);
    var a, b := Holdings(asg[members[i] := kept], members), Holdings(asg, members);
    var k, t, f := multiset(kept), multiset(shed), multiset(free);
    assert multiset(free + shed) == f + t;
    forall x
      ensures (a + (f + t))[x] == (b + f)[x]
    {
      assert (a + (k + t))[x] == (b + k)[x];
    }
    assert a + (f + t) == b + f;
  }

  /** Moving one shard from the pool to a member conserves the shards. */
  lemma MoveFromPool(asg: Assignment, members: seq<string>, i: nat, s: nat, free: seq<nat>, numShards: nat)
    requires Distinct(members) && i < |members|
    requires Conserved(asg, members, free + [s], numShards)
    ensures Conserved(asg[members[i] := Held(asg, members[i]) + [s]], members, free, numShards)
  {
    var old_ := Held(asg, members[i]);
    HoldingsUpdate(asg, members, i, old_ + [s]);
    var a, b := Holdings(asg[members[i] := old_ + [s]], members), Holdings(asg, members);
    assert multiset(old_ + [s]) == multiset(old_) + multiset{s};
    assert multiset(free + [s]) == multiset(free) + multiset{s};
    forall x
      ensures (a + multiset(free))[x] == (b + multiset(free + [s]))[x]
    {
      assert (a + multiset(old_))[x] == (b + (multiset(old_) + multiset{s}))[x];
    }
    assert a + multiset(free) == b + multiset(free + [s]);
  }

  /** Every member above its share gives up the excess. */
  method ShedAll(start: Assignment, members: seq<string>, free0: seq<nat>, numShards: nat)
    returns (asg: Assignment, free: seq<nat>)
    requires Distinct(members) && members != []
    requires start.Keys == MemberSet(members)
    requires Conserved(start, members, free0, numShards)
    ensures asg.Keys == MemberSet(members)
    ensures Conserved(asg, members, free, numShards)
    ensures forall j :: 0 <= j < |members| ==>
                          Trimmed(start[members[j]], asg[members[j]], Target(numShards, |members|, j), |members|, j)
  {
    asg, free := start, free0;
    var n := |members|;
    var targets := Targets(numShards, n);
    for idx := 0 to n
      invariant asg.Keys == MemberSet(members)
      invariant Conserved(asg, members, free, numShards)
      invariant forall j :: 0 <= j < idx ==> Trimmed(start[members[j]], asg[members[j]], targets[j], n, j)
      invariant forall j :: idx <= j < n ==> asg[members[j]] == start[members[j]]
    {
      assert members[idx] in MemberSet(members);
      var kept;
      kept, free := ShedOne(asg, members, free, numShards, targets[idx], idx);
      KeysStay(asg, members, idx, kept);
      asg := asg[members[idx] := kept];
    }
  }

  method ShedOne(asg: Assignment, members: seq<string>, free: seq<nat>, numShards: nat, target: nat, idx: nat)
    returns (kept: seq<nat>, free': seq<nat>)
    requires Distinct(members) && idx < |members| && members[idx] in asg
    requires Conserved(asg, members, free, numShards)
    ensures Trimmed(asg[members[idx]], kept, target, |members|, idx)
    ensures Conserved(asg[members[idx] := kept], members, free', numShards)
  {
    var shed;
    kept, shed := Shed(asg[members[idx]], target, |members|, idx);
    MoveToPool(asg, members, idx, kept, shed, free, numShards);
    free' := free + shed;
  }

  /** Replacing one member's list leaves the members and the other lists alone. */
  lemma KeysStay(asg: Assignment, members: seq<string>, idx: nat, mine: seq<nat>)
    requires Distinct(members) && idx < |members| && asg.Keys == MemberSet(members)
    ensures asg[members[idx] := mine].Keys == MemberSet(members)
    ensures forall j :: 0 <= j < |members| ==> members[j] in asg
    ensures forall j :: 0 <= j < |members| && j != idx ==> asg[members[idx] := mine][members[j]] == asg[members[j]]
  {
  }

  /** With a member still below its share, the pool cannot be empty. */
  lemma PoolNotEmpty(asg: Assignment, members: seq<string>, free: seq<nat>, numShards: nat, targets: seq<nat>, below: nat)
    requires below < |members| && targets == Targets(numShards, |members|)
    requires Conserved(asg, members, free, numShards)
    requires forall j :: 0 <= j < |members| ==> |Held(asg, members[j])| <= targets[j]
    requires |Held(asg, members[below])| < targets[below]
    ensures free != []
  {
    SumHeldIs(asg, members);
    TargetsCover(numShards, |members|);
    SumLess(Lengths(asg, members), targets, below);
    assert |Holdings(asg, members) + multiset(free)| == SumHeld(asg, members) + |free|;
  }

  /** With every member at its share, the pool is exhausted. */
  lemma PoolExhausted(asg: Assignment, members: seq<string>, free: seq<nat>, numShards: nat, targets: seq<nat>)
    requires members != [] && targets == Targets(numShards, |members|)
    requires Conserved(asg, members, free, numShards)
    requires forall j :: 0 <= j < |members| ==> |Held(asg, members[j])| == targets[j]
    ensures free == [] && Holdings(asg, members) == RangeBag(numShards)
  {
    SumHeldIs(asg, members);
    TargetsCover(numShards, |members|);
    assert Lengths(asg, members) == targets;
    assert |Holdings(asg, members) + multiset(free)| == SumHeld(asg, members) + |free|;
  }

  /** What the fill loop has done before position `idx`. */
  ghost predicate FilledTo(start: Assignment, asg: Assignment, members: seq<string>, targets: seq<nat>, idx: nat)
    requires |targets| == |members|
  {
    && (forall j :: 0 <= j < |members| ==> members[j] in start && members[j] in asg)
    && (forall j :: 0 <= j < |members| && j < idx ==> |asg[members[j]]| == targets[j] && start[members[j]] <= asg[members[j]])
    && (forall j :: idx <= j < |members| ==> asg[members[j]] == start[members[j]])
  }

  lemma FilledNext(start: Assignment, asg: Assignment, members: seq<string>, targets: seq<nat>, idx: nat, mine: seq<nat>)
    requires Distinct(members) && |targets| == |members| && idx < |members| && FilledTo(start, asg, members, targets, idx)
    requires |mine| == targets[idx] && asg[members[idx]] <= mine
    ensures FilledTo(start, asg[members[idx] := mine], members, targets, idx + 1)
  {
  }

  /** Every member below its share takes from the end of the pool. */
  method FillAll(start: Assignment, members: seq<string>, free0: seq<nat>, numShards: nat)
    returns (asg: Assignment, free: seq<nat>)
    requires Distinct(members) && members != []
    requires start.Keys == MemberSet(members)
    requires Conserved(start, members, free0, numShards)
    requires forall j :: 0 <= j < |members| ==> |start[members[j]]| <= Target(numShards, |members|, j)
    ensures asg.Keys == MemberSet(members)
    ensures free == [] && Holdings(asg, members) == RangeBag(numShards)
    ensures forall j :: 0 <= j < |members| ==>
                          |asg[members[j]]| == Target(numShards, |members|, j) && start[members[j]] <= asg[members[j]]
  {
    var targets := Targets(numShards, |members|);
    KeysStay(start, members, 0, []);
    asg, free := FillLoop(start, members, free0, numShards, targets);
    PoolExhausted(asg, members, free, numShards, targets);
  }

  method FillLoop(start: Assignment, members: seq<string>, free0: seq<nat>, numShards: nat, targets: seq<nat>)
    returns (asg: Assignment, free: seq<nat>)
    requires Distinct(members) && members != [] && targets == Targets(numShards, |members|)
    requires start.Keys == MemberSet(members) && FilledTo(start, start, members, targets, 0)
    requires Conserved(start, members, free0, numShards)
    requires forall j :: 0 <= j < |members| ==> |start[members[j]]| <= targets[j]
    ensures asg.Keys == MemberSet(members) && Conserved(asg, members, free, numShards)
    ensures FilledTo(start, asg, members, targets, |members|)
  {
    asg, free := start, free0;
    for idx := 0 to |members|
      invariant asg.Keys == MemberSet(members) && Conserved(asg, members, free, numShards)
      invariant FilledTo(start, asg, members, targets, idx)
    {
      var mine;
      mine, free := FillOne(asg, members, free, numShards, targets, idx);
      KeysStay(asg, members, idx, mine);
      FilledNext(start, asg, members, targets, idx, mine);
      asg := asg[members[idx] := mine];
    }
  }

  /** One step of the fill loop: the pool has a shard to give, and giving it conserves the shards. */
  lemma TakeOne(asg: Assignment, members: seq<string>, idx: nat, mine: seq<nat>, free: seq<nat>, numShards: nat, targets: seq<nat>)
    requires Distinct(members) && idx < |members| && targets == Targets(numShards, |members|)
    requires forall j :: 0 <= j < |members| ==> |Held(asg, members[j])| <= targets[j]
    requires |mine| < targets[idx] && Conserved(asg[members[idx] := mine], members, free, numShards)
    ensures free != []
    ensures Conserved(asg[members[idx] := mine + [free[|free| - 1]]], members, free[..|free| - 1], numShards)
  {
    var with := asg[members[idx] := mine];
    forall j | 0 <= j < |members|
      ensures |Held(with, members[j])| <= targets[j]
    {
      assert j == idx || members[j] != members[idx];
    }
    PoolNotEmpty(with, members, free, numShards, targets, idx);
    var last := |free| - 1;
    assert free == free[..last] + [free[last]];
    MoveFromPool(with, members, idx, free[last], free[..last], numShards);
    assert with[members[idx] := mine + [free[last]]] == asg[members[idx] := mine + [free[last]]];
  }

  method FillOne(asg: Assignment, members: seq<string>, free0: seq<nat>, numShards: nat, targets: seq<nat>, idx: nat)
    returns (mine: seq<nat>, free: seq<nat>)
    requires Distinct(members) && idx < |members| && targets == Targets(numShards, |members|) && members[idx] in asg
    requires Conserved(asg, members, free0, numShards)
    requires forall j :: 0 <= j < |members| ==> |Held(asg, members[j])| <= targets[j]
    ensures Conserved(asg[members[idx] := mine], members, free, numShards)
    ensures |mine| == targets[idx] && asg[members[idx]] <= mine
  {
    var id, target := members[idx], targets[idx];
    mine, free := asg[id], free0;
    assert asg[id := mine] == asg;
    while |mine| < target
      invariant Conserved(asg[id := mine], members, free, numShards)
      invariant |mine| <= target && asg[id] <= mine
      decreases target - |mine|
    {
      TakeOne(asg, members, idx, mine, free, numShards, targets);
      if free == [] {
        break; // never taken: a member below its share leaves something in the pool
      }
      mine, free := mine + [free[|free| - 1]], free[..|free| - 1];
    }
  }

  // ── Sorting and the outcome ────────────────────────────────────────────────

  /** No repetition and sorted is ascending. */
  lemma SortedOnceAscending(s: seq<nat>, n: nat)
    requires Sorted(s) && multiset(s) <= RangeBag(n)
    ensures Ascending(s)
  {
    forall i, j | 0 <= i < j < |s|
      ensures s[i] < s[j]
    {
      assert multiset(s)[s[i]] <= RangeBag(n)[s[i]];
      RangeBagCount(n, s[i]);
      if s[i] == s[j] {
        TwiceIn(s, i, j);
      }
    }
  }

  /** Every shard has one owner, every member has its share, lists are ascending. */
  ghost predicate Balanced(asg: Assignment, members: seq<string>, numShards: nat)
  {
    && Holdings(asg, members) == RangeBag(numShards)
    && forall j :: 0 <= j < |members| ==>
                     && Ascending(Held(asg, members[j]))
                     && |Held(asg, members[j])| == Target(numShards, |members|, j)
  }

  /** What `Balanced` means shard by shard. */
  lemma BalancedIsPartition(asg: Assignment, members: seq<string>, numShards: nat, s: nat) returns (owner: nat)
    requires Balanced(asg, members, numShards) && s < numShards
    ensures owner < |members| && s in Held(asg, members[owner])
    ensures forall j :: 0 <= j < |members| && s in Held(asg, members[j]) ==> j == owner
    ensures forall j, x :: 0 <= j < |members| && x in Held(asg, members[j]) ==> x < numShards
  {
    RangeBagCount(numShards, s);
    owner := HoldingsOwner(asg, members, s);
    forall j | 0 <= j < |members| && s in Held(asg, members[j])
      ensures j == owner
    {
      if j < owner {
        HoldingsDisjoint(asg, members, j, owner, s);
      } else if owner < j {
        HoldingsDisjoint(asg, members, owner, j, s);
      }
    }
    forall j, x | 0 <= j < |members| && x in Held(asg, members[j])
      ensures x < numShards
    {
      HoldingsContain(asg, members, j);
      RangeBagCount(numShards, x);
      assert x in multiset(Held(asg, members[j]));
    }
  }

  ghost predicate StickyFrom(before: Assignment, after: Assignment, members: seq<string>, numShards: nat)
  {
    forall j :: 0 <= j < |members| ==>
                  Sticky(Held(before, members[j]), Held(after, members[j]), Target(numShards, |members|, j), |members|, j)
  }

  /** Trimming, filling and sorting one member's shards keeps the sticky promise. */
  lemma StickyChain(before: seq<nat>, trimmed: seq<nat>, filled: seq<nat>, sorted: seq<nat>, target: nat, n: nat, idx: nat)
    requires n > 0
    requires Trimmed(before, trimmed, target, n, idx)
    requires trimmed <= filled && |filled| == target
    requires multiset(sorted) == multiset(filled)
    ensures Sticky(before, sorted, target, n, idx)
  {
    SameElements(filled, sorted);
    if |before| >= target {
      assert filled == trimmed;
      forall s | s in trimmed
        ensures s in before
      {
        assert s in multiset(trimmed);
      }
    } else {
      assert forall s :: s in before ==> s in filled;
    }
  }

  lemma SortedOutcome(start: Assignment, trimmed: Assignment, filled: Assignment, after: Assignment, members: seq<string>, numShards: nat)
    requires start.Keys == trimmed.Keys == filled.Keys == after.Keys == MemberSet(members)
    requires Holdings(filled, members) == RangeBag(numShards)
    requires forall j :: 0 <= j < |members| ==>
                           Trimmed(start[members[j]], trimmed[members[j]], Target(numShards, |members|, j), |members|, j)
    requires forall j :: 0 <= j < |members| ==>
                           |filled[members[j]]| == Target(numShards, |members|, j) && trimmed[members[j]] <= filled[members[j]]
    requires forall j :: 0 <= j < |members| ==> after[members[j]] == Sort(filled[members[j]])
    ensures Balanced(after, members, numShards)
    ensures StickyFrom(start, after, members, numShards)
  {
    HoldingsAgree(after, filled, members);
    forall j | 0 <= j < |members|
      ensures Ascending(Held(after, members[j])) && |Held(after, members[j])| == Target(numShards, |members|, j)
      ensures Sticky(Held(start, members[j]), Held(after, members[j]), Target(numShards, |members|, j), |members|, j)
    {
      var m, target := members[j], Target(numShards, |members|, j);
      assert m in MemberSet(members);
      HoldingsContain(after, members, j);
      SortedOnceAscending(after[m], numShards);
      SameElements(after[m], filled[m]);
      StickyChain(start[m], trimmed[m], filled[m], after[m], target, |members|, j);
    }
  }

  method SortAll(start: Assignment, members: seq<string>) returns (asg: Assignment)
    requires Distinct(members) && start.Keys == MemberSet(members)
    ensures asg.Keys == start.Keys
    ensures forall j :: 0 <= j < |members| ==> asg[members[j]] == Sort(start[members[j]])
  {
    asg := start;
    for idx := 0 to |members|
      invariant asg.Keys == start.Keys
      invariant forall j :: 0 <= j < idx ==> asg[members[j]] == Sort(start[members[j]])
      invariant forall j :: idx <= j < |members| ==> asg[members[j]] == start[members[j]]
    {
      assert members[idx] in MemberSet(members);
      assert forall j :: 0 <= j < |members| && j != idx ==> members[j] != members[idx];
      asg := asg[members[idx] := Sort(asg[members[idx]])];
    }
  }

  /** Members whose shard list is new or different, and former members still on record. */
  ghost function Changed(before: Assignment, after: Assignment, members: seq<string>): (ids: set<string>)
  {
    (set id | id in members && !(id in before && id in after && before[id] == after[id]))
    + (before.Keys - MemberSet(members))
  }

  method Diff(before: Assignment, after: Assignment, members: seq<string>) returns (changed: set<string>)
    requires after.Keys == MemberSet(members)
    ensures changed == Changed(before, after, members)
  {
    changed := {};
    for k := 0 to |members|
      invariant changed == set id | id in members[..k] && !(id in before && id in after && before[id] == after[id])
    {
      var id := members[k];
      assert members[..k + 1] == members[..k] + [id];
      assert id in MemberSet(members);
      if id !in before || before[id] != after[id] {
        changed := changed + {id};
      }
    }
    assert members[..|members|] == members;
    changed := changed + set id | id in before && id !in members;
  }

  /** The sticky rebalance of `before` for the current `members`. */
  method RecomputeSticky(before: Assignment, members: seq<string>, numShards: nat)
    returns (after: Assignment, changed: set<string>)
    requires Distinct(members)
    requires Holdings(before, members) <= RangeBag(numShards)
    ensures members == [] ==> after == map[] && changed == before.Keys
    ensures members != [] ==>
              && after.Keys == MemberSet(members)
              && Balanced(after, members, numShards)
              && StickyFrom(before, after, members, numShards)
              && changed == Changed(before, after, members)
  {
    if members == [] {
      return map[], before.Keys;
    }
    var start := map id | id in members :: Held(before, id);
    forall j | 0 <= j < |members|
      ensures Held(start, members[j]) == Held(before, members[j])
    {
      assert members[j] in start;
    }
    HoldingsAgree(start, before, members);
    var free := CollectFree(start, members, numShards);
    var trimmed, pool := ShedAll(start, members, free, numShards);
    var filled, rest := FillAll(trimmed, members, pool, numShards);
    after := SortAll(filled, members);
    SortedOutcome(start, trimmed, filled, after, members, numShards);
    assert StickyFrom(before, after, members, numShards);
    changed := Diff(before, after, members);
  }

  // ── Round robin, used for the first member ─────────────────────────────────

  /** Shards below `numShards` that round-robin gives to position `i` of `n`. */
  function RoundRobinShare(numShards: nat, n: nat, i: nat): (shards: seq<nat>)
    requires n > 0
  {
    if numShards == 0 then
      []
    else
      RoundRobinShare(numShards - 1, n, i) + if Home(numShards - 1, n, i) then [numShards - 1] else []
  }

  method RecomputeRoundRobin(members: seq<string>, numShards: nat) returns (asg: Assignment)
    requires Distinct(members)
    ensures asg.Keys <= MemberSet(members)
    ensures forall i :: 0 <= i < |members| ==> Held(asg, members[i]) == RoundRobinShare(numShards, |members|, i)
  {
    asg := map[];
    var n := |members|;
    if n == 0 {
      return;
    }
    for shard := 0 to numShards
      invariant asg.Keys <= MemberSet(members)
      invariant forall i :: 0 <= i < n ==> Held(asg, members[i]) == RoundRobinShare(shard, n, i)
    {
      var owner := members[shard % n];
      assert forall i :: 0 <= i < n && members[i] == owner ==> i == shard % n;
      asg := asg[owner := Held(asg, owner) + [shard]];
    }
  }

  lemma {:induction false} SoleShare(numShards: nat)
    ensures var all := RoundRobinShare(numShards, 1, 0);
            |all| == numShards && multiset(all) == RangeBag(numShards) && forall i :: 0 <= i < numShards ==> all[i] == i
  {
    if numShards > 0 {
      SoleShare(numShards - 1);
      HomeAlone(numShards - 1);
    }
  }

  lemma HomeAlone(s: nat)
    ensures Home(s, 1, 0)
  {
  }

  lemma SoleMemberBalanced(asg: Assignment, id: string, numShards: nat)
    requires Held(asg, id) == RoundRobinShare(numShards, 1, 0)
    ensures Balanced(asg, [id], numShards)
    ensures StickyFrom(map[], asg, [id], numShards)
  {
    SoleShare(numShards);
    assert [id][..0] == [];
    assert Holdings(asg, [id][..0]) == multiset{};
    assert Target(numShards, 1, 0) == numShards;
    assert Held(map[], id) == [];
  }

  // ── Membership changes ─────────────────────────────────────────────────────

  function Without(members: seq<string>, pos: nat): (rest: seq<string>)
    requires pos < |members|
  {
    members[..pos] + members[pos + 1..]
  }

  lemma BagAssoc(a: multiset<nat>, b: multiset<nat>, c: multiset<nat>)
    ensures (a + b) + c == a + (b + c)
  {
  }

  lemma BagCross(a: multiset<nat>, b: multiset<nat>, c: multiset<nat>)
    ensures (a + b) + c == (a + c) + b
  {
  }

  lemma HoldingsSnoc(asg: Assignment, members: seq<string>, id: string)
    ensures Holdings(asg, members + [id]) == Holdings(asg, members) + multiset(Held(asg, id))
  {
    assert (members + [id])[..|members|] == members;
  }

  lemma SplitLast<T>(a: seq<T>, b: seq<T>)
    requires b != []
    ensures a + b == (a + b[..|b| - 1]) + [b[|b| - 1]] && b == b[..|b| - 1] + [b[|b| - 1]]
  {
  }

  lemma Around<T>(s: seq<T>, pos: nat)
    requires pos < |s|
    ensures (s[..pos] + [s[pos]]) + s[pos + 1..] == s
  {
  }

  lemma ConcatStep(asg: Assignment, a: seq<string>, b: seq<string>, id: string)
    requires Holdings(asg, a + b) == Holdings(asg, a) + Holdings(asg, b)
    ensures Holdings(asg, (a + b) + [id]) == Holdings(asg, a) + Holdings(asg, b + [id])
  {
    HoldingsSnoc(asg, a + b, id);
    HoldingsSnoc(asg, b, id);
    BagAssoc(Holdings(asg, a), Holdings(asg, b), multiset(Held(asg, id)));
  }

  lemma {:induction false} HoldingsConcat(asg: Assignment, a: seq<string>, b: seq<string>)
    ensures Holdings(asg, a + b) == Holdings(asg, a) + Holdings(asg, b)
  {
    if b == [] {
      assert a + b == a;
    } else {
      var init, last := b[..|b| - 1], b[|b| - 1];
      HoldingsConcat(asg, a, init);
      ConcatStep(asg, a, init, last);
      SplitLast(a, b);
    }
  }

  lemma HoldingsMiddle(asg: Assignment, a: seq<string>, id: string, b: seq<string>)
    ensures Holdings(asg, a + b) + multiset(Held(asg, id)) == Holdings(asg, (a + [id]) + b)
  {
    HoldingsConcat(asg, a, b);
    HoldingsSnoc(asg, a, id);
    HoldingsConcat(asg, a + [id], b);
    BagCross(Holdings(asg, a), Holdings(asg, b), multiset(Held(asg, id)));
  }

  lemma HoldingsWithout(asg: Assignment, members: seq<string>, pos: nat)
    requires pos < |members|
    ensures Holdings(asg, Without(members, pos)) + multiset(Held(asg, members[pos])) == Holdings(asg, members)
  {
    HoldingsMiddle(asg, members[..pos], members[pos], members[pos + 1..]);
    Around(members, pos);
  }

  lemma HoldingsJoin(asg: Assignment, members: seq<string>, id: string)
    requires id !in asg
    ensures Holdings(asg, members + [id]) == Holdings(asg, members)
  {
    assert (members + [id])[..|members|] == members;
  }

  /** After a join no earlier member has a shard it did not have before. */
  lemma JoinOnlyTakes(before: Assignment, after: Assignment, members: seq<string>, id: string, numShards: nat)
    requires members != [] && Balanced(before, members, numShards)
    requires StickyFrom(before, after, members + [id], numShards)
    ensures GainsNone(before, after, members)
  {
    forall j | 0 <= j < |members|
      ensures forall s :: s in Held(after, members[j]) ==> s in Held(before, members[j])
    {
      assert (members + [id])[j] == members[j];
      TargetShrinks(numShards, |members|, j);
    }
  }

  lemma TargetAfterLeave(numShards: nat, n: nat, i: nat, j: nat)
    requires n > 0 && (j == i || j == i + 1)
    ensures Target(numShards, n + 1, j) <= Target(numShards, n, i)
  {
    TargetShrinks(numShards, n, i);
    assert Target(numShards, n + 1, j) <= Target(numShards, n + 1, i);
  }

  function Position(members: seq<string>, id: string): (pos: nat)
    requires id in members
    ensures pos < |members| && members[pos] == id
  {
    if members[0] == id then 0 else 1 + Position(members[1..], id)
  }

  /** Position before the leave of the member now at `i`. */
  function OldIndex(pos: nat, i: nat): (j: nat)
  {
    if i < pos then i else i + 1
  }

  /** After a leave every remaining member still has every shard it had. */
  lemma LeaveOnlyGives(before: Assignment, after: Assignment, members: seq<string>, pos: nat, numShards: nat)
    requires pos < |members| && Balanced(before, members, numShards)
    requires StickyFrom(before, after, Without(members, pos), numShards)
    ensures KeepsAll(before, after, Without(members, pos))
  {
    var rest := Without(members, pos);
    forall i | 0 <= i < |rest|
      ensures forall s :: s in Held(before, rest[i]) ==> s in Held(after, rest[i])
    {
      var j := OldIndex(pos, i);
      assert rest[i] == members[j];
      TargetAfterLeave(numShards, |rest|, i, j);
    }
  }

  ghost predicate KeepsAll(before: Assignment, after: Assignment, members: seq<string>)
  {
    forall i, s :: 0 <= i < |members| && s in Held(before, members[i]) ==> s in Held(after, members[i])
  }

  ghost predicate GainsNone(before: Assignment, after: Assignment, members: seq<string>)
  {
    forall i, s :: 0 <= i < |members| && s in Held(after, members[i]) ==> s in Held(before, members[i])
  }

  /** The assignment after `id` joins `members`. */
  method Admit(before: Assignment, members: seq<string>, id: string, numShards: nat)
    returns (after: Assignment, changed: set<string>)
    requires Distinct(members) && id !in members
    requires before.Keys <= MemberSet(members)
    requires members != [] ==> Balanced(before, members, numShards)
    ensures after.Keys <= MemberSet(members + [id])
    ensures Balanced(after, members + [id], numShards)
    ensures StickyFrom(before, after, members + [id], numShards)
    ensures changed == Changed(before, after, members + [id])
    ensures GainsNone(before, after, members)
  {
    if members == [] {
      assert before == map[];
      assert members + [id] == [id];
      after, changed := AdmitFirst(id, numShards);
    } else {
      assert id !in MemberSet(members);
      HoldingsJoin(before, members, id);
      after, changed := RecomputeSticky(before, members + [id], numShards);
      JoinOnlyTakes(before, after, members, id, numShards);
    }
  }

  method AdmitFirst(id: string, numShards: nat) returns (after: Assignment, changed: set<string>)
    ensures after.Keys <= MemberSet([id])
    ensures Balanced(after, [id], numShards)
    ensures StickyFrom(map[], after, [id], numShards)
    ensures changed == Changed(map[], after, [id])
  {
    after := RecomputeRoundRobin([id], numShards);
    SoleMemberBalanced(after, id, numShards);
    changed := {id};
  }

  /** The assignment after the member at `pos` leaves. */
  method Dismiss(before: Assignment, members: seq<string>, pos: nat, numShards: nat)
    returns (after: Assignment, changed: set<string>)
    requires Distinct(members) && pos < |members|
    requires before.Keys <= MemberSet(members)
    requires Balanced(before, members, numShards)
    ensures after.Keys == MemberSet(Without(members, pos))
    ensures |members| > 1 ==> Balanced(after, Without(members, pos), numShards)
    ensures StickyFrom(before, after, Without(members, pos), numShards)
    ensures changed == Changed(before - {members[pos]}, after, Without(members, pos))
    ensures KeepsAll(before, after, Without(members, pos))
  {
    var rest := Without(members, pos);
    var kept := before - {members[pos]};
    HoldingsWithout(before, members, pos);
    LeaverGone(members, pos, before);
    HoldingsAgree(kept, before, rest);
    after, changed := RecomputeSticky(kept, rest, numShards);
    StickyAgree(kept, before, after, rest, numShards);
    LeaveOnlyGives(before, after, members, pos, numShards);
  }

  lemma StickyAgree(a: Assignment, b: Assignment, after: Assignment, members: seq<string>, numShards: nat)
    requires forall i :: 0 <= i < |members| ==> Held(a, members[i]) == Held(b, members[i])
    requires members != [] ==> StickyFrom(a, after, members, numShards)
    ensures StickyFrom(b, after, members, numShards)
  {
  }

  lemma RemainingMembers(was: seq<string>, pos: nat)
    requires Distinct(was) && pos < |was|
    ensures Distinct(Without(was, pos)) && was[pos] !in Without(was, pos)
    ensures MemberSet(Without(was, pos)) == MemberSet(was) - {was[pos]}
  {
  }

  lemma LeaverGone(was: seq<string>, pos: nat, asg: Assignment)
    requires Distinct(was) && pos < |was|
    ensures Distinct(Without(was, pos))
    ensures MemberSet(Without(was, pos)) == MemberSet(was) - {was[pos]}
    ensures forall i :: 0 <= i < |Without(was, pos)| ==>
                          Held(asg - {was[pos]}, Without(was, pos)[i]) == Held(asg, Without(was, pos)[i])
  {
    RemainingMembers(was, pos);
  }

  const MAX_U32: nat := 0xFFFF_FFFF

  function NextGeneration(g: nat): (next: nat)
  {
    if g < MAX_U32 then g + 1 else g
  }

  class GroupState {
    var generation: nat
    var members: seq<string>
    var assignments: Assignment
    var shardOffsets: map<nat, nat>
    var lastChanged: set<string>
    const numShards: nat

    ghost predicate Valid()
      reads this
    {
      && Distinct(members)
      && assignments.Keys <= MemberSet(members)
      && (members != [] ==> Balanced(assignments, members, numShards))
    }

    constructor (numShards: nat)
      ensures Valid() && members == [] && generation == 0 && shardOffsets == map[] && lastChanged == {}
      ensures this.numShards == numShards
    {
      this.numShards := numShards;
      generation, members, assignments, shardOffsets, lastChanged := 0, [], map[], map[], {};
    }

    method Join(id: string) returns (gen: nat, shards: seq<nat>)
      requires Valid()
      modifies this
      ensures Valid() && shardOffsets == old(shardOffsets)
      ensures gen == generation && shards == Held(assignments, id)
      ensures id in old(members) ==> unchanged(this)
      ensures id !in old(members) ==>
                && members == old(members) + [id]
                && generation == NextGeneration(old(generation))
                && StickyFrom(old(assignments), assignments, members, numShards)
                && lastChanged == Changed(old(assignments), assignments, members)
      ensures GainsNone(old(assignments), assignments, old(members))
    {
      if id !in members {
        assignments, lastChanged := Admit(assignments, members, id, numShards);
        members := members + [id];
        generation := NextGeneration(generation);
      }
      return generation, Held(assignments, id);
    }

    method Leave(id: string) returns (present: bool)
      requires Valid()
      modifies this
      ensures Valid() && shardOffsets == old(shardOffsets)
      ensures present <==> id in old(members)
      ensures !present ==> unchanged(this)
      ensures present ==>
                && members == Without(old(members), Position(old(members), id))
                && generation == NextGeneration(old(generation))
                && id !in assignments
                && StickyFrom(old(assignments), assignments, members, numShards)
                && lastChanged == Changed(old(assignments) - {id}, assignments, members)
      ensures KeepsAll(old(assignments), assignments, members)
    {
      if id !in members {
        return false;
      }
      var pos := Position(members, id);
      assignments, lastChanged := Dismiss(assignments, members, pos, numShards);
      RemainingMembers(members, pos);
      members := Without(members, pos);
      generation := NextGeneration(generation);
      present := true;
    }

    /** Raises the last processed sequence of a shard; a lower one is ignored. */
    method CommitOffset(shard: nat, seq_: nat) returns (advanced: bool)
      modifies this`shardOffsets
      ensures advanced <==> seq_ > (if shard in old(shardOffsets) then old(shardOffsets)[shard] else 0)
      ensures shard in shardOffsets
      ensures shardOffsets[shard] == Max(seq_, if shard in old(shardOffsets) then old(shardOffsets)[shard] else 0)
      ensures shardOffsets - {shard} == old(shardOffsets) - {shard}
    {
      var entry := if shard in shardOffsets then shardOffsets[shard] else 0;
      advanced := seq_ > entry;
      shardOffsets := shardOffsets[shard := if advanced then seq_ else entry];
    }
  }

  // ── How many shards move ───────────────────────────────────────────────────

  ghost function ShardSet(s: seq<nat>): (shards: set<nat>)
  {
    set x | x in s
  }

  lemma {:induction false} AscendingSetSize(s: seq<nat>)
    requires Ascending(s)
    ensures |ShardSet(s)| == |s|
  {
    if s != [] {
      var last := |s| - 1;
      AscendingSetSize(s[..last]);
      assert s[last] !in s[..last];
      assert ShardSet(s) == ShardSet(s[..last]) + {s[last]};
    }
  }

  lemma {:induction false} SetSizeAtMost(s: seq<nat>)
    ensures |ShardSet(s)| <= |s|
  {
    if s != [] {
      var last := |s| - 1;
      SetSizeAtMost(s[..last]);
      assert ShardSet(s) == ShardSet(s[..last]) + {s[last]};
    }
  }

  /** Shards `id` holds both before and after. */
  ghost function Kept(before: Assignment, after: Assignment, id: string): (n: nat)
  {
    |ShardSet(Held(before, id)) * ShardSet(Held(after, id))|
  }

  ghost function TotalKept(before: Assignment, after: Assignment, members: seq<string>): (n: nat)
  {
    if members == [] then
      0
    else
      TotalKept(before, after, members[..|members| - 1]) + Kept(before, after, members[|members| - 1])
  }

  lemma KeptAtMost(before: Assignment, after: Assignment, id: string)
    ensures Kept(before, after, id) <= Min(|Held(before, id)|, |Held(after, id)|)
  {
    var a, b := ShardSet(Held(before, id)), ShardSet(Held(after, id));
    SubsetSize(a * b, a);
    SubsetSize(a * b, b);
    SetSizeAtMost(Held(before, id));
    SetSizeAtMost(Held(after, id));
  }

  /** A sticky rebalance keeps the smaller of what a member had and its share. */
  lemma KeptExactly(before: Assignment, after: Assignment, id: string, target: nat, n: nat, idx: nat)
    requires n > 0
    requires Ascending(Held(before, id)) && Ascending(Held(after, id))
    requires Sticky(Held(before, id), Held(after, id), target, n, idx)
    ensures Kept(before, after, id) == Min(|Held(before, id)|, target)
  {
    var a, b := ShardSet(Held(before, id)), ShardSet(Held(after, id));
    AscendingSetSize(Held(before, id));
    AscendingSetSize(Held(after, id));
    if |Held(before, id)| <= target {
      assert a * b == a;
    } else {
      assert a * b == b;
    }
  }

  /** No assignment with the same shares leaves more shards in place. */
  lemma {:induction false} MovementMinimal(before: Assignment, after: Assignment, other: Assignment,
                                           members: seq<string>, targets: seq<nat>, n: nat)
    requires n > 0 && |targets| == |members|
    requires forall j :: 0 <= j < |members| ==>
                           && Ascending(Held(before, members[j])) && Ascending(Held(after, members[j]))
                           && Sticky(Held(before, members[j]), Held(after, members[j]), targets[j], n, j)
                           && |Held(other, members[j])| == targets[j]
    ensures TotalKept(before, other, members) <= TotalKept(before, after, members)
  {
    if members != [] {
      var last := |members| - 1;
      MovementMinimal(before, after, other, members[..last], targets[..last], n);
      KeptExactly(before, after, members[last], targets[last], n, last);
      KeptAtMost(before, other, members[last]);
    }
  }

  /** The rebalance moves the fewest shards that reach the fair shares. */
  lemma StickyIsMinimal(before: Assignment, after: Assignment, other: Assignment, members: seq<string>, numShards: nat)
    requires members != []
    requires forall j :: 0 <= j < |members| ==> Ascending(Held(before, members[j]))
    requires Balanced(after, members, numShards) && StickyFrom(before, after, members, numShards)
    requires forall j :: 0 <= j < |members| ==> |Held(other, members[j])| == Target(numShards, |members|, j)
    ensures TotalKept(before, other, members) <= TotalKept(before, after, members)
  {
    MovementMinimal(before, after, other, members, Targets(numShards, |members|), |members|);
  }

  /** A join moves exactly the joiner's share and nothing else. */
  lemma JoinMovesOneShare(before: Assignment, after: Assignment, members: seq<string>, id: string, numShards: nat)
    requires members != [] && Balanced(before, members, numShards) && id !in before
    requires Balanced(after, members + [id], numShards)
    requires StickyFrom(before, after, members + [id], numShards)
    ensures TotalKept(before, after, members + [id]) + Target(numShards, |members| + 1, |members|) == numShards
  {
    var all := members + [id];
    assert all[..|members|] == members;
    JoinOnlyTakes(before, after, members, id, numShards);
    forall j | 0 <= j < |members|
      ensures Kept(before, after, members[j]) == |Held(after, members[j])|
    {
      assert all[j] == members[j];
      AscendingSetSize(Held(after, members[j]));
      assert ShardSet(Held(before, members[j])) * ShardSet(Held(after, members[j])) == ShardSet(Held(after, members[j]));
    }
    KeptIsHeld(before, after, members);
    assert ShardSet(Held(before, id)) == {};
    assert Kept(before, after, id) == 0;
    assert SumHeld(after, all) == SumHeld(after, members) + |Held(after, id)|;
    assert all[|members|] == id;
  }

  lemma {:induction false} KeptIsHeld(before: Assignment, after: Assignment, members: seq<string>)
    requires forall j :: 0 <= j < |members| ==> Kept(before, after, members[j]) == |Held(after, members[j])|
    ensures TotalKept(before, after, members) == SumHeld(after, members)
  {
    if members != [] {
      KeptIsHeld(before, after, members[..|members| - 1]);
    }
  }

  /** Among members on record before and after, `Changed` names exactly those whose shards differ. */
  lemma ChangedIffMoved(before: Assignment, after: Assignment, members: seq<string>, id: string)
    requires id in members && id in before && id in after
    requires Ascending(before[id]) && Ascending(after[id])
    ensures id in Changed(before, after, members) <==> ShardSet(before[id]) != ShardSet(after[id])
  {
    if ShardSet(before[id]) == ShardSet(after[id]) {
      AscendingUnique(before[id], after[id]);
    }
  }

  lemma {:induction false} AscendingUnique(a: seq<nat>, b: seq<nat>)
    requires Ascending(a) && Ascending(b) && ShardSet(a) == ShardSet(b)
    ensures a == b
  {
    AscendingSetSize(a);
    AscendingSetSize(b);
    if a != [] {
      var last := |a| - 1;
      assert a[last] in ShardSet(b) && b[last] in ShardSet(a);
      assert ShardSet(a[..last]) == ShardSet(a) - {a[last]};
      assert ShardSet(b[..last]) == ShardSet(b) - {b[last]};
      AscendingUnique(a[..last], b[..last]);
    }
  }

  // ── Histories ──────────────────────────────────────────────────────────────

  datatype Membership = Joins(id: string) | Leaves(id: string)

  ghost function MembersAfter(history: seq<Membership>): (members: seq<string>)
  {
    if history == [] then
      []
    else
      var was := MembersAfter(history[..|history| - 1]);
      match history[|history| - 1]
      case Joins(id) => if id in was then was else was + [id]
      case Leaves(id) => if id in was then Without(was, Position(was, id)) else was
  }

  /** Any history of joins and leaves ends balanced, with members in join order. */
  method Replay(numShards: nat, history: seq<Membership>) returns (group: GroupState)
    ensures fresh(group) && group.Valid() && group.numShards == numShards
    ensures group.members == MembersAfter(history)
    ensures group.members != [] ==> Balanced(group.assignments, group.members, numShards)
  {
    group := new GroupState(numShards);
    for k := 0 to |history|
      invariant fresh(group) && group.Valid() && group.numShards == numShards
      invariant group.members == MembersAfter(history[..k])
    {
      assert history[..k + 1][..k] == history[..k];
      match history[k]
      case Joins(id) =>
        var _, _ := group.Join(id);
      case Leaves(id) =>
        var _ := group.Leave(id);
    }
    assert history[..|history|] == history;
  }
}
