/** What forgetting the longest idle keys costs a budget (`TokenBudget`, src/sampleserver/visitors.py): nothing, as long
    as each forgotten key comes back full; and the rate itself, where it does not. */
module Forgetting {
  import opened RealArithmetic
  import opened Sorting
  import opened Budgets
  import opened BudgetLaws

  /** The buckets one table holds are held alike by another. */
  ghost predicate HeldAlike(t: Table, u: Table) {
    forall k :: k in t.buckets ==> k in u.buckets && u.buckets[k] == t.buckets[k]
  }

  function Unforgetting(l: Limits): Limits {
    l.(bound := Unbounded)
  }

  // A key the first table lacks and the second holds has refilled by now.
  ghost predicate ReturnsFull(l: Limits, t: Table, u: Table, key: Key, now: real) {
    key !in t.buckets && key in u.buckets ==>
      u.buckets[key].tokens + Gain(l, u.buckets[key].updatedAt, now) >= l.capacity
  }

  /** Throughout a run, each forgotten key comes back only after its bucket would have refilled. */
  ghost predicate AllReturnFull(l: Limits, t: Table, u: Table, calls: seq<Call>)
    requires l.refill > 0.0
    decreases |calls|
  {
    calls != [] ==>
      && ReturnsFull(l, t, u, calls[0].key, calls[0].at)
      && AllReturnFull(l, AfterCall(l, t, calls[0]), AfterCall(Unforgetting(l), u, calls[0]), calls[1..])
  }

  /** One touch finds the bucket it would have found had no one been forgotten, exactly if the key returns full. */
  lemma OneTouchTellsNothing(l: Limits, t: Table, u: Table, key: Key, now: real)
    requires HeldAlike(t, u)
    ensures BucketOf(l, t, key, now) == BucketOf(Unforgetting(l), u, key, now) <==> ReturnsFull(l, t, u, key, now)
  {
  }

  lemma TouchingAlike(l: Limits, t: Table, u: Table, key: Key, now: real)
    requires l.Valid() && OneEach(t) && OneEach(u) && WithinBound(l.bound, t) && HeldAlike(t, u)
    requires ReturnsFull(l, t, u, key, now)
    ensures HeldAlike(Touched(l, t, key, now), Touched(Unforgetting(l), u, key, now))
    ensures BucketOf(l, t, key, now) == BucketOf(Unforgetting(l), u, key, now)
  {
    OneTouchTellsNothing(l, t, u, key, now);
    TouchedBuckets(l, t, key, now);
    hide BucketOf, Without;
    assert Touched(Unforgetting(l), u, key, now) == Used(Unforgetting(l), u, key, now);
  }

  lemma OneCallTellsNothing(l: Limits, t: Table, u: Table, call: Call, from: real)
    requires Settled(l, t, from) && Settled(Unforgetting(l), u, from) && HeldAlike(t, u)
    requires from <= call.at <= call.End() && (!call.WaitFor? ==> call.cost >= 0.0)
    requires ReturnsFull(l, t, u, call.key, call.at)
    ensures AnswerTo(l, t, call) == AnswerTo(Unforgetting(l), u, call)
    ensures HeldAlike(AfterCall(l, t, call), AfterCall(Unforgetting(l), u, call))
  {
    var free, key, at := Unforgetting(l), call.key, call.at;
    TouchingAlike(l, t, u, key, at);
    SettledLater(l, t, from, at);
    SettledLater(free, u, from, at);
    assert AnswerTo(l, t, call) == AnswerTo(free, u, call);
    if call.Charge? {
      ChargingAlike(l, t, u, key, call.cost, at);
    } else if call.Take? && AnswerTo(l, t, call) == Granted {
      var t', u' := Touched(l, t, key, at), Touched(free, u, key, at);
      TouchingKeepsTheTable(l, t, key, at, call.later);
      TouchingKeepsTheTable(free, u, key, at, call.later);
      TouchingKeepsTheTable(l, t, key, at, at);
      TouchingKeepsTheTable(free, u, key, at, at);
      SettledLater(l, t', at, call.later);
      SettledLater(free, u', at, call.later);
      TouchedBuckets(l, t, key, at);
      ChargingAlike(l, t', u', key, call.cost, call.later);
    }
  }

  lemma ChargingAlike(l: Limits, t: Table, u: Table, key: Key, cost: real, now: real)
    requires Settled(l, t, now) && Settled(Unforgetting(l), u, now) && HeldAlike(t, u) && cost >= 0.0
    requires ReturnsFull(l, t, u, key, now)
    ensures HeldAlike(Charged(l, t, key, cost, now), Charged(Unforgetting(l), u, key, cost, now))
  {
    TouchingAlike(l, t, u, key, now);
    ChargedTable(l, t, key, cost, now);
    ChargedTable(Unforgetting(l), u, key, cost, now);
    hide Touched, Charged, BucketOf, ValidTable;
  }

  /** The bounded table answers every call of a run as a table that forgets no one would, whenever each
      forgotten key comes back only after its bucket would have refilled. */
  lemma {:induction false} ForgettingTellsNothing(l: Limits, t: Table, u: Table, calls: seq<Call>, from: real, to: real)
    requires Settled(l, t, from) && Settled(Unforgetting(l), u, from) && HeldAlike(t, u)
    requires Timely(calls, from, to) && Costs(calls) && AllReturnFull(l, t, u, calls)
    ensures Answers(l, t, calls) == Answers(Unforgetting(l), u, calls)
    decreases |calls|
  {
    if calls != [] {
      hide AfterCall, AnswerTo, ReturnsFull, ValidTable, Settled, HeldAlike;
      var call := calls[0];
      assert call in calls;
      OneCallTellsNothing(l, t, u, call, from);
      OneCallSettles(l, t, call, from);
      OneCallSettles(Unforgetting(l), u, call, from);
      ForgettingTellsNothing(l, AfterCall(l, t, call), AfterCall(Unforgetting(l), u, call), calls[1..], call.End(), to);
    }
  }

  // ------------------------------------------------------------------ the rate

  lemma {:induction false} SpentAlike(l: Limits, t: Table, u: Table, calls: seq<Call>, key: Key, from: real, to: real)
    requires Settled(l, t, from) && Settled(Unforgetting(l), u, from) && HeldAlike(t, u)
    requires Timely(calls, from, to) && Costs(calls) && AllReturnFull(l, t, u, calls)
    ensures Spent(l, t, calls, key) == Spent(Unforgetting(l), u, calls, key)
    decreases |calls|
  {
    if calls != [] {
      hide AfterCall, AnswerTo, ReturnsFull, ValidTable, Settled, HeldAlike;
      var call := calls[0];
      assert call in calls;
      OneCallTellsNothing(l, t, u, call, from);
      OneCallSettles(l, t, call, from);
      OneCallSettles(Unforgetting(l), u, call, from);
      SpentAlike(l, AfterCall(l, t, call), AfterCall(Unforgetting(l), u, call), calls[1..], key, call.End(), to);
    }
  }

  lemma OneCallRemembers(l: Limits, t: Table, call: Call, key: Key, from: real)
    requires Settled(l, t, from) && l.bound.Unbounded? && key in t.buckets
    requires from <= call.at <= call.End() && (!call.WaitFor? ==> call.cost >= 0.0)
    ensures key in AfterCall(l, t, call).buckets
  {
    assert Touched(l, t, call.key, call.at) == Used(l, t, call.key, call.at);
    if call.Take? {
      var touched := Touched(l, t, call.key, call.at);
      assert Touched(l, touched, call.key, call.later) == Used(l, touched, call.key, call.later);
    }
  }

  lemma {:induction false} UnboundedRemembers(l: Limits, t: Table, calls: seq<Call>, key: Key, from: real, to: real)
    requires Settled(l, t, from) && l.bound.Unbounded? && Timely(calls, from, to) && Costs(calls)
    ensures Remembers(l, t, calls, key)
    decreases |calls|
  {
    if calls != [] {
      hide AfterCall, ValidTable, Settled;
      assert calls[0] in calls;
      if key in t.buckets {
        OneCallRemembers(l, t, calls[0], key, from);
      }
      OneCallSettles(l, t, calls[0], from);
      UnboundedRemembers(l, AfterCall(l, t, calls[0]), calls[1..], key, calls[0].End(), to);
    }
  }

  lemma RefillsAlike(l: Limits, from: real, to: real)
    ensures Unforgetting(l).capacity == l.capacity && Unforgetting(l).bound.Unbounded?
    ensures Gain(Unforgetting(l), from, to) == Gain(l, from, to)
  {
  }

  /** A key keeps to the rate through every forgetting, as long as whoever was forgotten comes back full. */
  lemma FullReturnsKeepTheRate(l: Limits, t: Table, u: Table, calls: seq<Call>, key: Key, from: real, to: real)
    requires Settled(l, t, from) && Settled(Unforgetting(l), u, from) && HeldAlike(t, u)
    requires Timely(calls, from, to) && Costs(calls) && AllReturnFull(l, t, u, calls)
    requires TakenAlone(calls, key) && Balance(Unforgetting(l), u, key, from) >= 0.0
    ensures Spent(l, t, calls, key) <= l.capacity + Gain(l, from, to)
  {
    hide *;
    RefillsAlike(l, from, to);
    SpentAlike(l, t, u, calls, key, from, to);
    UnboundedRemembers(Unforgetting(l), u, calls, key, from, to);
    GrantsStayWithinTheRate(Unforgetting(l), u, calls, key, from, to);
  }

  // ------------------------------------------------------------------ who is forgotten

  lemma {:induction false} WithoutJoined(a: seq<Key>, b: seq<Key>, key: Key)
    ensures Without(a + b, key) == Without(a, key) + Without(b, key)
  {
    if a == [] {
      assert a + b == b;
    } else {
      assert (a + b)[1..] == a[1..] + b && (a + b)[0] == a[0];
      WithoutJoined(a[1..], b, key);
    }
  }

  ghost predicate IsTail(tail: seq<Key>, whole: seq<Key>) {
    |tail| <= |whole| && tail == whole[|whole| - |tail|..]
  }

  lemma TailOfJoined(a: seq<Key>, b: seq<Key>)
    ensures IsTail(b, a + b)
  {
  }

  lemma TailIsJoined(tail: seq<Key>, whole: seq<Key>) returns (older: seq<Key>)
    requires IsTail(tail, whole)
    ensures whole == older + tail
  {
    older := whole[..|whole| - |tail|];
  }

  /** The bounded table holds the keys the unbounded one used last, in the same order, and is full once it holds
      fewer. */
  ghost predicate HoldsTheLatest(l: Limits, t: Table, u: Table) {
    && IsTail(t.order, u.order)
    && (|t.order| < |u.order| ==> l.bound.AtMost? && |t.order| == l.bound.keys)
  }

  // A table whose keys end another's, and which is full if anything stands before them.
  lemma LatestStay(l: Limits, t: Table, u: Table, older: seq<Key>)
    requires u.order == older + t.order && (older == [] || (l.bound.AtMost? && |t.order| == l.bound.keys))
    ensures HoldsTheLatest(l, t, u)
  {
    TailOfJoined(older, t.order);
  }

  lemma HeldKeysStayLatest(l: Limits, t: Table, u: Table, older: seq<Key>, key: Key, now: real)
    requires l.Valid() && OneEach(t) && OneEach(u) && WithinBound(l.bound, t) && u.order == older + t.order
      && key in t.order
    requires older == [] || (l.bound.AtMost? && |t.order| == l.bound.keys)
    ensures HoldsTheLatest(l, Touched(l, t, key, now), Used(l, u, key, now))
  {
    WithoutJoined(older, t.order, key);
    KeyIsNotOlder(u, older, t.order, key);
    WithoutAStranger(older, key);
    HeldKeyToTheEnd(l, t, key, now);
    var t', u' := Touched(l, t, key, now), Used(l, u, key, now);
    var kept := Without(t.order, key);
    assert t'.order == kept + [key] && u'.order == (older + kept) + [key];
    hide Touched, Used, Without, OneEach, HoldsTheLatest;
    assert (older + kept) + [key] == older + (kept + [key]);
    LatestStay(l, t', u', older);
  }

  lemma NewKeysBecomeLatest(l: Limits, t: Table, u: Table, older: seq<Key>, key: Key, now: real)
    requires l.Valid() && OneEach(t) && OneEach(u) && WithinBound(l.bound, t) && u.order == older + t.order
      && key !in t.order
    requires older == [] || (l.bound.AtMost? && |t.order| == l.bound.keys)
    ensures HoldsTheLatest(l, Touched(l, t, key, now), Used(l, u, key, now))
  {
    WithoutJoined(older, t.order, key);
    WithoutAStranger(t.order, key);
    NewestAtTheEnd(l, t, key, now);
    var t', u', rest := Touched(l, t, key, now), Used(l, u, key, now), Without(older, key);
    assert u'.order == (rest + t.order) + [key];
    assert older == [] ==> rest == [];
    var full := l.bound.AtMost? && |t.order| == l.bound.keys;
    hide *;
    Regrouped(rest, t.order, key);
    LatestStay(l, t', u', if full then rest + [t.order[0]] else []);
  }

  lemma Regrouped(rest: seq<Key>, latest: seq<Key>, key: Key)
    ensures latest != [] ==> (rest + latest) + [key] == (rest + [latest[0]]) + (latest[1..] + [key])
    ensures rest == [] ==> (rest + latest) + [key] == [] + (latest + [key])
  {
  }

  lemma UnboundedTouch(l: Limits, u: Table, key: Key, now: real)
    ensures Touched(Unforgetting(l), u, key, now) == Used(l, u, key, now)
  {
  }

  lemma TouchingKeepsTheLatest(l: Limits, t: Table, u: Table, key: Key, now: real)
    requires l.Valid() && OneEach(t) && OneEach(u) && WithinBound(l.bound, t) && HoldsTheLatest(l, t, u)
    ensures HoldsTheLatest(l, Touched(l, t, key, now), Touched(Unforgetting(l), u, key, now))
  {
    hide Touched, Used, OneEach, WithinBound;
    UnboundedTouch(l, u, key, now);
    var older := TailIsJoined(t.order, u.order);
    assert older == [] || (l.bound.AtMost? && |t.order| == l.bound.keys);
    hide *;
    if key in t.order {
      HeldKeysStayLatest(l, t, u, older, key, now);
    } else {
      NewKeysBecomeLatest(l, t, u, older, key, now);
    }
  }

  lemma HeldKeyToTheEnd(l: Limits, t: Table, key: Key, now: real)
    requires l.Valid() && OneEach(t) && WithinBound(l.bound, t) && key in t.order
    ensures Touched(l, t, key, now).order == Without(t.order, key) + [key] && |Without(t.order, key)| == |t.order| - 1
  {
    WithoutKeepsTheRest(t.order, key);
    Fitting(l, t, key, now);
  }

  lemma KeyIsNotOlder(u: Table, older: seq<Key>, latest: seq<Key>, key: Key)
    requires OneEach(u) && u.order == older + latest && key in latest
    ensures key !in older
    ensures forall i, j :: 0 <= i < j < |latest| ==> latest[i] != latest[j]
  {
    var j :| 0 <= j < |latest| && latest[j] == key;
    assert u.order[|older| + j] == key;
    forall i | 0 <= i < |older|
      ensures older[i] != key
    {
      assert u.order[i] == older[i];
    }
    forall i, k | 0 <= i < k < |latest|
      ensures latest[i] != latest[k]
    {
      assert u.order[|older| + i] == latest[i] && u.order[|older| + k] == latest[k];
    }
  }

  // A key the table does not hold goes to the end, and the first key makes room where it must.
  lemma NewestAtTheEnd(l: Limits, t: Table, key: Key, now: real)
    requires l.Valid() && OneEach(t) && WithinBound(l.bound, t) && key !in t.order
    ensures Touched(l, t, key, now).order
         == if l.bound.AtMost? && |t.order| == l.bound.keys then t.order[1..] + [key] else t.order + [key]
    ensures l.bound.AtMost? && |t.order| == l.bound.keys ==> t.order != []
  {
    WithoutAStranger(t.order, key);
    if l.bound.AtMost? && |t.order| == l.bound.keys {
      Overflowing(l, t, key, now);
    } else {
      Fitting(l, t, key, now);
    }
  }

  lemma ChargingKeepsTheOrder(l: Limits, t: Table, key: Key, cost: real, now: real)
    ensures Charged(l, t, key, cost, now).order == Touched(l, t, key, now).order
  {
  }

  lemma OneCallKeepsTheLatest(l: Limits, t: Table, u: Table, call: Call, from: real)
    requires Settled(l, t, from) && Settled(Unforgetting(l), u, from) && HoldsTheLatest(l, t, u)
    requires from <= call.at <= call.End() && (!call.WaitFor? ==> call.cost >= 0.0)
    requires AnswerTo(l, t, call) == AnswerTo(Unforgetting(l), u, call)
    ensures HoldsTheLatest(l, AfterCall(l, t, call), AfterCall(Unforgetting(l), u, call))
  {
    var free, key, at := Unforgetting(l), call.key, call.at;
    var t', u' := Touched(l, t, key, at), Touched(free, u, key, at);
    SettledLater(l, t, from, at);
    SettledLater(free, u, from, at);
    TouchingKeepsTheLatest(l, t, u, key, at);
    TouchingKeepsTheTable(l, t, key, at, at);
    TouchingKeepsTheTable(free, u, key, at, at);
    hide Touched, Charged, OneEach, WithinBound, ByLastUse, IsTail;
    if call.Charge? {
      ChargingKeepsTheOrder(l, t, key, call.cost, at);
      ChargingKeepsTheOrder(free, u, key, call.cost, at);
    } else if call.Take? && AnswerTo(l, t, call) == Granted {
      TouchingKeepsTheLatest(l, t', u', key, call.later);
      ChargingKeepsTheOrder(l, t', key, call.cost, call.later);
      ChargingKeepsTheOrder(free, u', key, call.cost, call.later);
    }
  }

  // ------------------------------------------------------------------ few keys at once

  /** The last of the first j calls on a key's budget, or -1. */
  function LastCall(calls: seq<Call>, j: nat, key: Key): (i: int)
    requires j <= |calls|
    ensures -1 <= i < j && (i >= 0 ==> calls[i].key == key)
  {
    if j == 0 then -1 else if calls[j - 1].key == key then j - 1 else LastCall(calls, j - 1, key)
  }

  function KeysOf(calls: seq<Call>, i: nat, j: nat): set<Key>
    requires i <= j <= |calls|
  {
    set m | i <= m < j :: calls[m].key
  }

  /** Within the time a budget in that much debt takes to refill, calls come from no more than so many keys. */
  ghost predicate FewKeysAtOnce(l: Limits, calls: seq<Call>, debt: real, keys: nat)
    requires l.refill > 0.0
  {
    forall i, j :: 0 <= i <= j < |calls| && calls[j].at - calls[i].End() < (l.capacity + debt) / l.refill ==>
      |KeysOf(calls, i, j + 1)| <= keys
  }

  /** No call of a run leaves its key further in debt. */
  ghost predicate OwesAtMost(l: Limits, t: Table, calls: seq<Call>, debt: real)
    requires l.refill > 0.0
    decreases |calls|
  {
    calls != [] ==>
      && Balance(l, AfterCall(l, t, calls[0]), calls[0].key, calls[0].End()) >= 0.0 - debt
      && OwesAtMost(l, AfterCall(l, t, calls[0]), calls[1..], debt)
  }

  // The unbounded table after the first j calls: its keys by their last calls, no bucket touched later or further in
  // debt.
  ghost predicate ByLastCall(l: Limits, u: Table, calls: seq<Call>, j: nat, debt: real)
    requires j <= |calls|
  {
    && (forall k :: k in u.order ==> LastCall(calls, j, k) >= 0)
    && (forall a, b :: 0 <= a < b < |u.order| ==> LastCall(calls, j, u.order[a]) < LastCall(calls, j, u.order[b]))
    && (forall k :: k in u.buckets ==> StampedByItsLastCall(l, u, calls, j, k, debt))
  }

  ghost predicate StampedByItsLastCall(l: Limits, u: Table, calls: seq<Call>, j: nat, k: Key, debt: real)
    requires j <= |calls| && k in u.buckets
  {
    var i := LastCall(calls, j, k);
    i >= 0 && Stamped(l, u.buckets[k], calls[i].End(), debt)
  }

  // Touched by then, and no further in debt.
  predicate Stamped(l: Limits, b: Bucket, end: real, debt: real) {
    b.updatedAt <= end && b.tokens + Gain(l, b.updatedAt, end) >= 0.0 - debt
  }

  lemma {:induction false} WithoutKeepsTheRanks(order: seq<Key>, key: Key, rank: Key -> int)
    requires forall a, b :: 0 <= a < b < |order| ==> rank(order[a]) < rank(order[b])
    ensures forall k :: k in Without(order, key) ==> k in order && k != key
    ensures forall a, b :: 0 <= a < b < |Without(order, key)| ==>
      rank(Without(order, key)[a]) < rank(Without(order, key)[b])
  {
    if order != [] {
      var rest := order[1..];
      WithoutKeepsTheRanks(rest, key, rank);
      assert forall k :: k in rest ==> rank(order[0]) < rank(k);
    }
  }

  function Ranks(calls: seq<Call>, j: nat): Key -> int
    requires j <= |calls|
  {
    (k: Key) => LastCall(calls, j, k)
  }

  // The key called goes to the end, and its call is the last.
  lemma CalledLast(order: seq<Key>, calls: seq<Call>, j: nat)
    requires j < |calls| && forall k :: k in order ==> LastCall(calls, j, k) >= 0
    requires forall a, b :: 0 <= a < b < |order| ==> LastCall(calls, j, order[a]) < LastCall(calls, j, order[b])
    ensures var after := Without(order, calls[j].key) + [calls[j].key];
      && (forall k :: k in after ==> LastCall(calls, j + 1, k) >= 0)
      && (forall a, b :: 0 <= a < b < |after| ==> LastCall(calls, j + 1, after[a]) < LastCall(calls, j + 1, after[b]))
  {
    var rank := Ranks(calls, j);
    WithoutKeepsTheRanks(order, calls[j].key, rank);
    var rest := Without(order, calls[j].key);
    var after := rest + [calls[j].key];
    forall k | k in rest
      ensures LastCall(calls, j + 1, k) == LastCall(calls, j, k) >= 0
    {
    }
    forall a, b | 0 <= a < b < |after|
      ensures LastCall(calls, j + 1, after[a]) < LastCall(calls, j + 1, after[b])
    {
      assert after[a] == rest[a] && after[a] in rest;
      if b < |rest| {
        assert after[b] == rest[b] && after[b] in rest && rank(rest[a]) < rank(rest[b]);
      }
    }
  }

  lemma WithoutItsEnd(order: seq<Key>, key: Key)
    ensures Without(Without(order, key) + [key], key) == Without(order, key)
  {
    WithoutJoined(Without(order, key), [key], key);
    WithoutTwice(order, key);
  }

  lemma {:induction false} WithoutTwice(order: seq<Key>, key: Key)
    ensures Without(Without(order, key), key) == Without(order, key)
  {
    if order != [] {
      WithoutTwice(order[1..], key);
      assert order[0] != key ==> ([order[0]] + Without(order[1..], key))[1..] == Without(order[1..], key);
    }
  }

  // What a call leaves of its key's bucket, and of the others.
  lemma CalledBucket(l: Limits, u: Table, call: Call, from: real)
    requires Settled(l, u, from) && l.bound.Unbounded? && from <= call.at <= call.End()
    requires !call.WaitFor? ==> call.cost >= 0.0
    ensures var after := AfterCall(l, u, call);
      && after.order == Without(u.order, call.key) + [call.key]
      && call.key in after.buckets && after.buckets[call.key].updatedAt <= call.End()
      && forall k :: k != call.key && k in after.buckets ==> k in u.buckets && after.buckets[k] == u.buckets[k]
  {
    var key, at := call.key, call.at;
    var once := Touched(l, u, key, at);
    assert once == Used(l, u, key, at);
    WithoutItsEnd(u.order, key);
    if call.Take? && AnswerTo(l, u, call) == Granted {
      assert Touched(l, once, key, call.later) == Used(l, once, key, call.later);
      hide Touched, Without, ValidTable, Gain, Min;
    }
  }

  lemma CalledIsHeld(l: Limits, t: Table, call: Call, from: real)
    requires Settled(l, t, from) && from <= call.at <= call.End() && (!call.WaitFor? ==> call.cost >= 0.0)
    ensures call.key in AfterCall(l, t, call).buckets
  {
    var key, at := call.key, call.at;
    SettledLater(l, t, from, at);
    TouchedBuckets(l, t, key, at);
    TouchingKeepsTheTable(l, t, key, at, at);
    hide Touched, Charged, ValidTable;
    if call.Charge? {
      ChargedTable(l, t, key, call.cost, at);
    } else if call.Take? && AnswerTo(l, t, call) == Granted {
      SettledLater(l, Touched(l, t, key, at), at, call.later);
      ChargedTable(l, Touched(l, t, key, at), key, call.cost, call.later);
    }
  }

  // A balance no further in debt is that of a bucket so stamped.
  lemma BalancesAreStamped(l: Limits, t: Table, key: Key, end: real, debt: real)
    requires key in t.buckets && t.buckets[key].updatedAt <= end && Balance(l, t, key, end) >= 0.0 - debt
    ensures Stamped(l, t.buckets[key], end, debt)
  {
  }

  lemma OneCallByLastCall(l: Limits, u: Table, calls: seq<Call>, j: nat, from: real, debt: real)
    requires j < |calls| && Settled(l, u, from) && l.bound.Unbounded? && ByLastCall(l, u, calls, j, debt)
    requires from <= calls[j].at <= calls[j].End() && (!calls[j].WaitFor? ==> calls[j].cost >= 0.0)
    requires Balance(l, AfterCall(l, u, calls[j]), calls[j].key, calls[j].End()) >= 0.0 - debt
    ensures ByLastCall(l, AfterCall(l, u, calls[j]), calls, j + 1, debt)
  {
    var call, after := calls[j], AfterCall(l, u, calls[j]);
    CalledBucket(l, u, call, from);
    CalledLast(u.order, calls, j);
    BalancesAreStamped(l, after, call.key, call.End(), debt);
    BucketsStayStamped(l, u, after, calls, j, debt);
    hide AfterCall, Without, Settled, StampedByItsLastCall, Balance;
  }

  lemma BucketsStayStamped(l: Limits, u: Table, after: Table, calls: seq<Call>, j: nat, debt: real)
    requires j < |calls| && forall k :: k in u.buckets ==> StampedByItsLastCall(l, u, calls, j, k, debt)
    requires calls[j].key in after.buckets && Stamped(l, after.buckets[calls[j].key], calls[j].End(), debt)
    requires forall k :: k != calls[j].key && k in after.buckets ==> k in u.buckets && after.buckets[k] == u.buckets[k]
    ensures forall k :: k in after.buckets ==> StampedByItsLastCall(l, after, calls, j + 1, k, debt)
  {
    hide Stamped;
    forall k | k in after.buckets
      ensures StampedByItsLastCall(l, after, calls, j + 1, k, debt)
    {
      if k != calls[j].key {
        assert StampedByItsLastCall(l, u, calls, j, k, debt);
      }
    }
  }

  lemma LaterKeysAreCalled(l: Limits, u: Table, calls: seq<Call>, j: nat, debt: real, a: nat, b: nat)
    requires j < |calls| && ByLastCall(l, u, calls, j, debt) && a < b < |u.order|
    ensures var i := LastCall(calls, j, u.order[a]); i >= 0 && u.order[b] in KeysOf(calls, i, j + 1)
  {
    assert u.order[a] in u.order;
    var m := LastCall(calls, j, u.order[b]);
    assert LastCall(calls, j, u.order[a]) < m < j && calls[m].key == u.order[b];
  }

  // A forgotten key's last call lies as many keys back as the table holds, and its own.
  lemma ManyKeysSince(l: Limits, t: Table, u: Table, calls: seq<Call>, j: nat, debt: real)
    requires j < |calls| && ByLastCall(l, u, calls, j, debt) && OneEach(t) && OneEach(u) && HoldsTheLatest(l, t, u)
    requires calls[j].key !in t.order && calls[j].key in u.order
    ensures var i := LastCall(calls, j, calls[j].key);
      l.bound.AtMost? && i >= 0 && |KeysOf(calls, i, j + 1)| > l.bound.keys
  {
    var key := calls[j].key;
    var a := PlaceBeforeTheTail(t.order, u.order, key);
    assert LastCall(calls, j, u.order[a]) >= 0;
    var keys := KeysOf(calls, LastCall(calls, j, key), j + 1);
    assert calls[j].key in keys;
    hide ByLastCall, LastCall, KeysOf, IsTail;
    forall k | k in t.order
      ensures k in keys
    {
      var b := PlaceInTheTail(t.order, u.order, k);
      LaterKeysAreCalled(l, u, calls, j, debt, a, b);
    }
    DistinctKeysCount(t.order, key, keys);
  }

  lemma PlaceBeforeTheTail(tail: seq<Key>, whole: seq<Key>, key: Key) returns (a: nat)
    requires IsTail(tail, whole) && key in whole && key !in tail
    ensures a < |whole| - |tail| && whole[a] == key
  {
    var head := whole[..|whole| - |tail|];
    assert whole == head + tail;
    a :| 0 <= a < |head| && head[a] == key;
  }

  lemma PlaceInTheTail(tail: seq<Key>, whole: seq<Key>, key: Key) returns (b: nat)
    requires IsTail(tail, whole) && key in tail
    ensures |whole| - |tail| <= b < |whole| && whole[b] == key
  {
    var i :| 0 <= i < |tail| && tail[i] == key;
    b := |whole| - |tail| + i;
  }

  lemma DistinctKeysCount(order: seq<Key>, key: Key, keys: set<Key>)
    requires (forall i, j :: 0 <= i < j < |order| ==> order[i] != order[j]) && key !in order
    requires key in keys && forall k :: k in order ==> k in keys
    ensures |keys| > |order|
    decreases order
  {
    if order != [] {
      var rest := order[1..];
      assert order[0] !in rest && order[0] in keys;
      DistinctKeysCount(rest, key, keys - {order[0]});
    }
  }

  lemma FullAgain(l: Limits, b: Bucket, end: real, at: real, debt: real)
    requires l.Valid() && Stamped(l, b, end, debt) && at - end >= (l.capacity + debt) / l.refill
    ensures b.tokens + Gain(l, b.updatedAt, at) >= l.capacity
  {
    var needed, elapsed := (l.capacity + debt) / l.refill, at - end;
    assert needed * l.refill == l.capacity + debt;
    assert Gain(l, b.updatedAt, at) == Gain(l, b.updatedAt, end) + elapsed * l.refill;
    LongerGainsMore(needed, elapsed, l.refill);
    hide Gain;
  }

  lemma LongerGainsMore(needed: real, elapsed: real, rate: real)
    requires rate > 0.0 && needed <= elapsed
    ensures needed * rate <= elapsed * rate
  {
    SignOfAProduct(elapsed - needed, rate);
    assert (elapsed - needed) * rate == elapsed * rate - needed * rate;
  }

  lemma MoreKeysTakeLonger(l: Limits, calls: seq<Call>, i: nat, j: nat, debt: real, keys: nat)
    requires l.Valid() && FewKeysAtOnce(l, calls, debt, keys)
    requires i <= j < |calls| && |KeysOf(calls, i, j + 1)| > keys
    ensures calls[j].at - calls[i].End() >= (l.capacity + debt) / l.refill
  {
    hide KeysOf;
  }

  /** The bounded table after the first j calls of a run, and the table that forgets no one: alike in what the first
      holds, which are the latest keys, each bucket as its last call left it. */
  ghost predicate Shadowed(l: Limits, t: Table, u: Table, calls: seq<Call>, j: nat, debt: real, now: real) {
    && j <= |calls| && l.bound.AtMost?
    && Settled(l, t, now) && Settled(Unforgetting(l), u, now)
    && HeldAlike(t, u) && HoldsTheLatest(l, t, u) && ByLastCall(l, u, calls, j, debt)
  }

  lemma ForgottenKeysReturnFull(l: Limits, t: Table, u: Table, calls: seq<Call>, j: nat, debt: real, from: real)
    requires Shadowed(l, t, u, calls, j, debt, from) && j < |calls|
    requires FewKeysAtOnce(l, calls, debt, l.bound.keys)
    ensures ReturnsFull(l, t, u, calls[j].key, calls[j].at)
  {
    hide FewKeysAtOnce, HoldsTheLatest, Gain, KeysOf, HeldAlike, Stamped;
    var key, at := calls[j].key, calls[j].at;
    if key !in t.buckets && key in u.buckets {
      ManyKeysSince(l, t, u, calls, j, debt);
      assert StampedByItsLastCall(l, u, calls, j, key, debt);
      var i := LastCall(calls, j, key);
      MoreKeysTakeLonger(l, calls, i, j, debt, l.bound.keys);
      FullAgain(l, u.buckets[key], calls[i].End(), at, debt);
    }
  }

  lemma OneCallStaysShadowed(l: Limits, t: Table, u: Table, calls: seq<Call>, j: nat, debt: real, from: real)
    requires Shadowed(l, t, u, calls, j, debt, from) && j < |calls| && FewKeysAtOnce(l, calls, debt, l.bound.keys)
    requires from <= calls[j].at <= calls[j].End() && (!calls[j].WaitFor? ==> calls[j].cost >= 0.0)
    requires Balance(l, AfterCall(l, t, calls[j]), calls[j].key, calls[j].End()) >= 0.0 - debt
    ensures ReturnsFull(l, t, u, calls[j].key, calls[j].at)
    ensures var free, call := Unforgetting(l), calls[j];
      Shadowed(l, AfterCall(l, t, call), AfterCall(free, u, call), calls, j + 1, debt, call.End())
  {
    var free, call := Unforgetting(l), calls[j];
    var t', u' := AfterCall(l, t, call), AfterCall(free, u, call);
    assert free.bound.Unbounded?;
    ForgottenKeysReturnFull(l, t, u, calls, j, debt, from);
    hide AfterCall, Settled, HoldsTheLatest, ByLastCall, FewKeysAtOnce, ReturnsFull, AnswerTo, Unforgetting, Balance,
      HeldAlike;
    OneCallTellsNothing(l, t, u, call, from);
    OneCallSettles(l, t, call, from);
    OneCallSettles(free, u, call, from);
    OneCallKeepsTheLatest(l, t, u, call, from);
    CalledIsHeld(l, t, call, from);
    BalancesAlike(l, t', u', call.key, call.End());
    StampedAlike(l, u, calls, j, debt);
    OneCallByLastCall(free, u, calls, j, from, debt);
    StampedAlike(l, u', calls, j + 1, debt);
  }

  lemma BalancesAlike(l: Limits, t: Table, u: Table, key: Key, now: real)
    requires HeldAlike(t, u) && key in t.buckets
    ensures Balance(Unforgetting(l), u, key, now) == Balance(l, t, key, now)
  {
  }

  lemma StampedAlike(l: Limits, u: Table, calls: seq<Call>, j: nat, debt: real)
    requires j <= |calls|
    ensures ByLastCall(Unforgetting(l), u, calls, j, debt) <==> ByLastCall(l, u, calls, j, debt)
  {
    forall k | k in u.buckets
      ensures StampedByItsLastCall(l, u, calls, j, k, debt)
         <==> StampedByItsLastCall(Unforgetting(l), u, calls, j, k, debt)
    {
      var i := LastCall(calls, j, k);
      hide Stamped;
      if i >= 0 {
        OneStampAlike(l, u.buckets[k], calls[i].End(), debt);
      }
    }
    hide StampedByItsLastCall, LastCall, Unforgetting;
  }

  lemma OneStampAlike(l: Limits, b: Bucket, end: real, debt: real)
    ensures Stamped(Unforgetting(l), b, end, debt) <==> Stamped(l, b, end, debt)
  {
    RefillsAlike(l, b.updatedAt, end);
    hide Gain;
  }

  lemma {:induction false} FewKeysAllReturnFull(l: Limits, t: Table, u: Table, calls: seq<Call>, j: nat, n: nat,
      debt: real, from: real, to: real)
    requires Shadowed(l, t, u, calls, j, debt, from) && j <= n <= |calls| && FewKeysAtOnce(l, calls, debt, l.bound.keys)
    requires Timely(calls[j..n], from, to) && Costs(calls) && OwesAtMost(l, t, calls[j..n], debt)
    ensures AllReturnFull(l, t, u, calls[j..n])
    ensures var free := Unforgetting(l);
      Shadowed(l, AfterAll(l, t, calls[j..n]), AfterAll(free, u, calls[j..n]), calls, n, debt, to)
    decreases n - j
  {
    if j < n {
      var free, call := Unforgetting(l), calls[j];
      assert call in calls && calls[j..n][0] == call && calls[j..n][1..] == calls[j + 1..n];
      hide AfterCall, Shadowed, FewKeysAtOnce, ReturnsFull, Balance;
      OneCallStaysShadowed(l, t, u, calls, j, debt, from);
      FewKeysAllReturnFull(l, AfterCall(l, t, call), AfterCall(free, u, call), calls, j + 1, n, debt, call.End(), to);
    } else {
      SettledLater(l, t, from, to);
      SettledLater(Unforgetting(l), u, from, to);
      hide Settled, HeldAlike, HoldsTheLatest, ByLastCall;
    }
  }

  lemma EmptyIsShadowed(l: Limits, calls: seq<Call>, debt: real, now: real)
    requires l.Valid() && l.bound.AtMost?
    ensures Shadowed(l, EMPTY, EMPTY, calls, 0, debt, now)
  {
  }

  lemma DebtStaysBounded(l: Limits, t: Table, u: Table, calls: seq<Call>, j: nat, debt: real, now: real, key: Key)
    requires Shadowed(l, t, u, calls, j, debt, now) && debt >= 0.0
    requires forall i :: 0 <= i < j ==> calls[i].End() <= now
    ensures Balance(Unforgetting(l), u, key, now) >= 0.0 - debt
  {
    hide HeldAlike, HoldsTheLatest;
    if key in u.buckets {
      assert StampedByItsLastCall(l, u, calls, j, key, debt);
      var b, end := u.buckets[key], calls[LastCall(calls, j, key)].End();
      Gains(l, b.updatedAt, end, now);
    }
  }

  lemma {:induction false} TimelyInOrder(calls: seq<Call>, from: real, to: real)
    requires Timely(calls, from, to)
    ensures forall i :: 0 <= i < |calls| ==> from <= calls[i].at <= calls[i].End() <= to
    decreases |calls|
  {
    if calls != [] {
      TimelyEnds(calls[1..], calls[0].End(), to);
      TimelyInOrder(calls[1..], calls[0].End(), to);
      forall i | 0 <= i < |calls|
        ensures from <= calls[i].at <= calls[i].End() <= to
      {
        if i > 0 {
          assert calls[i] == calls[1..][i - 1];
        }
      }
    }
  }

  lemma {:induction false} TimelyInTurn(one: seq<Call>, two: seq<Call>, from: real, between: real, to: real)
    requires Timely(one, from, between) && Timely(two, between, to)
    ensures Timely(one + two, from, to)
    decreases |one|
  {
    if one == [] {
      assert one + two == two;
      if two == [] {
      } else {
        assert from <= between <= two[0].at;
      }
    } else {
      assert (one + two)[0] == one[0] && (one + two)[1..] == one[1..] + two;
      TimelyInTurn(one[1..], two, one[0].End(), between, to);
    }
  }

  lemma {:induction false} OwedInTurn(l: Limits, t: Table, one: seq<Call>, two: seq<Call>, debt: real)
    requires l.refill > 0.0
    ensures OwesAtMost(l, t, one + two, debt) <==>
      OwesAtMost(l, t, one, debt) && OwesAtMost(l, AfterAll(l, t, one), two, debt)
    decreases |one|
  {
    if one == [] {
      assert one + two == two;
    } else {
      hide AfterCall, Balance;
      assert (one + two)[0] == one[0] && (one + two)[1..] == one[1..] + two;
      OwedInTurn(l, AfterCall(l, t, one[0]), one[1..], two, debt);
    }
  }

  /** A run from an empty table, and a window at its end: the clock never runs back, and no key is ever left further in
      debt. */
  ghost predicate RunsInto(l: Limits, before: seq<Call>, window: seq<Call>, debt: real, begun: real, from: real,
      to: real)
    requires l.refill > 0.0
  {
    && Timely(before, begun, from) && Timely(window, from, to) && Costs(before + window)
    && OwesAtMost(l, EMPTY, before + window, debt)
  }

  // Before the window, at its end, and throughout it, each forgotten key comes back full.
  lemma WindowsAreShadowed(l: Limits, before: seq<Call>, window: seq<Call>, debt: real, begun: real, from: real,
      to: real)
    requires l.Valid() && l.bound.AtMost? && RunsInto(l, before, window, debt, begun, from, to)
    requires FewKeysAtOnce(l, before + window, debt, l.bound.keys)
    ensures AllReturnFull(l, EMPTY, EMPTY, before + window)
    ensures var free, calls := Unforgetting(l), before + window;
      var t, u := AfterAll(l, EMPTY, before), AfterAll(free, EMPTY, before);
      && Shadowed(l, t, u, calls, |before|, debt, from) && AllReturnFull(l, t, u, window)
      && Shadowed(l, AfterAll(l, t, window), AfterAll(free, u, window), calls, |calls|, debt, to)
  {
    var calls, k := before + window, |before|;
    assert calls[0..|calls|] == calls && calls[0..k] == before && calls[k..|calls|] == window;
    TimelyInTurn(before, window, begun, from, to);
    OwedInTurn(l, EMPTY, before, window, debt);
    hide *;
    EmptyIsShadowed(l, calls, debt, begun);
    FewKeysAllReturnFull(l, EMPTY, EMPTY, calls, 0, |calls|, debt, begun, to);
    FewKeysAllReturnFull(l, EMPTY, EMPTY, calls, 0, k, debt, begun, from);
    FewKeysAllReturnFull(
      l, AfterAll(l, EMPTY, before), AfterAll(Unforgetting(l), EMPTY, before), calls, k, |calls|, debt, from, to);
  }

  lemma ShadowedIsAlike(l: Limits, t: Table, u: Table, calls: seq<Call>, j: nat, debt: real, now: real)
    requires Shadowed(l, t, u, calls, j, debt, now)
    ensures Settled(l, t, now) && Settled(Unforgetting(l), u, now) && HeldAlike(t, u)
  {
  }

  /** Calls from no more keys at once than the table holds: every call is answered as though no key were ever forgotten,
      and over any window every key keeps to the rate and the debt a call may leave it in. */
  lemma FewKeysKeepTheRate(l: Limits, before: seq<Call>, window: seq<Call>, key: Key, debt: real, begun: real,
      from: real, to: real)
    requires l.Valid() && l.bound.AtMost? && debt >= 0.0 && RunsInto(l, before, window, debt, begun, from, to)
    requires FewKeysAtOnce(l, before + window, debt, l.bound.keys)
    ensures Answers(l, EMPTY, before + window) == Answers(Unforgetting(l), EMPTY, before + window)
    ensures Spent(l, AfterAll(l, EMPTY, before), window, key) <= l.capacity + Gain(l, from, to) + debt
  {
    var free, calls := Unforgetting(l), before + window;
    TimelyInTurn(before, window, begun, from, to);
    TimelyInOrder(calls, begun, to);
    assert Costs(window);
    hide *;
    WindowsAreShadowed(l, before, window, debt, begun, from, to);
    EmptyIsShadowed(l, calls, debt, begun);
    ShadowedIsAlike(l, EMPTY, EMPTY, calls, 0, debt, begun);
    ForgettingTellsNothing(l, EMPTY, EMPTY, calls, begun, to);
    var t, u := AfterAll(l, EMPTY, before), AfterAll(free, EMPTY, before);
    ShadowedIsAlike(l, t, u, calls, |before|, debt, from);
    SpentAlike(l, t, u, window, key, from, to);
    RefillsAlike(l, from, to);
    UnboundedRemembers(free, u, window, key, from, to);
    SpendingComesOutOfTheBalance(free, u, window, key, from, to);
    BalanceMoves(free, u, key, from, from);
    DebtStaysBounded(l, AfterAll(l, t, window), AfterAll(free, u, window), calls, |calls|, debt, to, key);
  }

  /** Where every call takes, no key is ever in debt. */
  lemma {:induction false} TakesOweNothing(l: Limits, t: Table, calls: seq<Call>, from: real, to: real)
    requires Settled(l, t, from) && Timely(calls, from, to) && Costs(calls) && forall c :: c in calls ==> !c.Charge?
    requires forall k :: Balance(l, t, k, from) >= 0.0
    ensures OwesAtMost(l, t, calls, 0.0)
    decreases |calls|
  {
    if calls != [] {
      var call := calls[0];
      assert call in calls;
      OneCallSettles(l, t, call, from);
      hide Balance, AfterCall, Settled;
      forall k
        ensures Balance(l, AfterCall(l, t, call), k, call.End()) >= 0.0
      {
        TakingLeavesNoDebt(l, t, call, k, from);
      }
      TakesOweNothing(l, AfterCall(l, t, call), calls[1..], call.End(), to);
    }
  }

  // ------------------------------------------------------------------ a key forgotten in between

  lemma {:induction false} SpentInTurn(l: Limits, t: Table, one: seq<Call>, two: seq<Call>, key: Key)
    requires l.refill > 0.0
    ensures AfterAll(l, t, one + two) == AfterAll(l, AfterAll(l, t, one), two)
    ensures Spent(l, t, one + two, key) == Spent(l, t, one, key) + Spent(l, AfterAll(l, t, one), two, key)
    decreases |one|
  {
    if one == [] {
      assert one + two == two;
    } else {
      hide AfterCall, SpentByCall;
      assert (one + two)[1..] == one[1..] + two && (one + two)[0] == one[0];
      SpentInTurn(l, AfterCall(l, t, one[0]), one[1..], two, key);
    }
  }

  /** One take of each key, all at once. */
  function TakesOf(keys: seq<Key>, cost: real): (calls: seq<Call>)
    ensures |calls| == |keys|
  {
    seq(|keys|, i requires 0 <= i < |keys| => Take(keys[i], cost, 0.0, 0.0))
  }

  lemma {:induction false} AtOnce(calls: seq<Call>)
    requires forall i :: 0 <= i < |calls| ==> calls[i].at == calls[i].End() == 0.0
    ensures Timely(calls, 0.0, 0.0)
    decreases |calls|
  {
    if calls != [] {
      AtOnce(calls[1..]);
    }
  }

  // A take by a key the table does not hold: it is granted, and stands last.
  lemma NewcomerTakes(l: Limits, t: Table, u: Table, key: Key, cost: real)
    requires Settled(l, t, 0.0) && Settled(Unforgetting(l), u, 0.0) && HoldsTheLatest(l, t, u)
    requires key !in u.order && 0.0 <= cost <= l.capacity
    ensures var call := Take(key, cost, 0.0, 0.0);
      && AnswerTo(l, t, call) == Granted
      && Settled(l, AfterCall(l, t, call), 0.0) && Settled(Unforgetting(l), AfterCall(Unforgetting(l), u, call), 0.0)
      && HoldsTheLatest(l, AfterCall(l, t, call), AfterCall(Unforgetting(l), u, call))
      && AfterCall(Unforgetting(l), u, call).order == u.order + [key]
  {
    var call, free := Take(key, cost, 0.0, 0.0), Unforgetting(l);
    assert key !in t.order && key !in t.buckets && key !in u.buckets;
    OneCallKeepsTheLatest(l, t, u, call, 0.0);
    OneCallSettles(l, t, call, 0.0);
    OneCallSettles(free, u, call, 0.0);
    CalledBucket(free, u, call, 0.0);
    WithoutAStranger(u.order, key);
  }

  // Both tables as the clock stands, the bounded one holding the latest keys of the other.
  ghost predicate Together(l: Limits, t: Table, u: Table) {
    Settled(l, t, 0.0) && Settled(Unforgetting(l), u, 0.0) && HoldsTheLatest(l, t, u)
  }

  // Keys that none has called, and `key` not among them.
  ghost predicate Newcomers(keys: seq<Key>, order: seq<Key>, key: Key) {
    Distinct(keys) && key !in keys && forall k :: k in keys ==> k !in order
  }

  lemma OneNewcomer(l: Limits, t: Table, u: Table, keys: seq<Key>, cost: real, key: Key)
    requires Together(l, t, u) && 0.0 <= cost <= l.capacity && keys != [] && Newcomers(keys, u.order, key)
    ensures var call := Take(keys[0], cost, 0.0, 0.0);
      && Together(l, AfterCall(l, t, call), AfterCall(Unforgetting(l), u, call))
      && AfterCall(Unforgetting(l), u, call).order == u.order + [keys[0]]
    ensures keys[0] != key && Newcomers(keys[1..], u.order + [keys[0]], key)
    ensures (u.order + [keys[0]]) + keys[1..] == u.order + keys
  {
    TheRestAreNewcomers(keys, u.order, key);
    hide Newcomers, AfterCall, HoldsTheLatest, Settled;
    NewcomerTakes(l, t, u, keys[0], cost);
  }

  lemma TheRestAreNewcomers(keys: seq<Key>, order: seq<Key>, key: Key)
    requires keys != [] && Newcomers(keys, order, key)
    ensures keys[0] != key && keys[0] !in order && Newcomers(keys[1..], order + [keys[0]], key)
    ensures (order + [keys[0]]) + keys[1..] == order + keys
  {
    var first, rest := keys[0], keys[1..];
    assert first in keys;
    forall k | k in rest
      ensures k in keys && k != first
    {
      var i :| 0 <= i < |rest| && rest[i] == k;
      assert keys[i + 1] == k;
    }
    forall i, j | 0 <= i < j < |rest|
      ensures rest[i] != rest[j]
    {
      assert rest[i] == keys[i + 1] && rest[j] == keys[j + 1];
    }
  }

  lemma {:induction false} NewcomersTake(l: Limits, t: Table, u: Table, keys: seq<Key>, cost: real, key: Key,
      debt: real)
    requires l.refill > 0.0 && Together(l, t, u) && 0.0 <= cost <= l.capacity && Newcomers(keys, u.order, key)
    requires debt >= 0.0
    ensures Together(l, AfterAll(l, t, TakesOf(keys, cost)), AfterAll(Unforgetting(l), u, TakesOf(keys, cost)))
    ensures AfterAll(Unforgetting(l), u, TakesOf(keys, cost)).order == u.order + keys
    ensures Spent(l, t, TakesOf(keys, cost), key) == 0.0 && OwesAtMost(l, t, TakesOf(keys, cost), debt)
    decreases |keys|
  {
    hide *;
    var free := l.(bound := Unbounded);
    UnforgettingIs(l);
    if keys == [] {
      NoTakes(l, t, cost, key, debt);
      NoTakes(free, u, cost, key, debt);
      assert u.order + keys == u.order;
    } else {
      var call := Take(keys[0], cost, 0.0, 0.0);
      OneNewcomer(l, t, u, keys, cost, key);
      NewcomerOwesNothing(l, t, u, keys, cost, key);
      TakesUnrolled(l, t, keys, cost, key, debt);
      TakesUnrolled(free, u, keys, cost, key, debt);
      NewcomersTake(l, AfterCall(l, t, call), AfterCall(free, u, call), keys[1..], cost, key, debt);
    }
  }

  lemma UnforgettingIs(l: Limits)
    ensures Unforgetting(l) == l.(bound := Unbounded)
  {
  }

  lemma NewcomerOwesNothing(l: Limits, t: Table, u: Table, keys: seq<Key>, cost: real, key: Key)
    requires Together(l, t, u) && 0.0 <= cost <= l.capacity && keys != [] && Newcomers(keys, u.order, key)
    ensures Balance(l, AfterCall(l, t, Take(keys[0], cost, 0.0, 0.0)), keys[0], 0.0) >= 0.0
  {
    assert keys[0] in keys && keys[0] !in t.order && keys[0] !in t.buckets;
    TakingLeavesNoDebt(l, t, Take(keys[0], cost, 0.0, 0.0), keys[0], 0.0);
  }

  lemma NoTakes(l: Limits, t: Table, cost: real, key: Key, debt: real)
    requires l.refill > 0.0
    ensures AfterAll(l, t, TakesOf([], cost)) == t && Spent(l, t, TakesOf([], cost), key) == 0.0
    ensures OwesAtMost(l, t, TakesOf([], cost), debt)
  {
  }

  lemma TakesUnrolled(l: Limits, t: Table, keys: seq<Key>, cost: real, key: Key, debt: real)
    requires l.refill > 0.0 && keys != []
    ensures var after := AfterCall(l, t, Take(keys[0], cost, 0.0, 0.0));
      && (OwesAtMost(l, t, TakesOf(keys, cost), debt) <==>
            Balance(l, after, keys[0], 0.0) >= 0.0 - debt && OwesAtMost(l, after, TakesOf(keys[1..], cost), debt))
      && AfterAll(l, t, TakesOf(keys, cost)) == AfterAll(l, after, TakesOf(keys[1..], cost))
      && (keys[0] != key ==> Spent(l, t, TakesOf(keys, cost), key) == Spent(l, after, TakesOf(keys[1..], cost), key))
  {
    OneKeyMore(keys, cost);
    hide AfterCall, TakesOf, Balance;
  }

  lemma OneKeyMore(keys: seq<Key>, cost: real)
    requires keys != []
    ensures TakesOf(keys, cost)[0] == Take(keys[0], cost, 0.0, 0.0)
      && TakesOf(keys, cost)[1..] == TakesOf(keys[1..], cost)
  {
  }

  lemma TakesAtOnce(keys: seq<Key>, others: seq<Key>, cost: real, key: Key)
    requires cost >= 0.0
    ensures var calls := (TakesOf(keys, cost) + TakesOf(others, cost)) + TakesOf(keys, cost);
      && Timely(calls, 0.0, 0.0) && Costs(calls) && (forall c :: c in calls ==> !c.Charge?)
      && (keys == [key] ==> CalledBy(calls, key, others))
  {
    AtOnce((TakesOf(keys, cost) + TakesOf(others, cost)) + TakesOf(keys, cost));
  }

  lemma StartingEmpty(l: Limits, key: Key, others: seq<Key>)
    requires l.Valid() && Distinct(others) && key !in others
    ensures Settled(l, EMPTY, 0.0) && Together(l, EMPTY, EMPTY) && EMPTY == Table([], map[])
    ensures Gain(l, 0.0, 0.0) == 0.0 && Newcomers(others, [key], key)
    ensures l.refill > 0.0 && l.capacity > 0.0 && Unforgetting(l).refill > 0.0
  {
  }

  // Every call is the key's own or one of the others'.
  ghost predicate CalledBy(calls: seq<Call>, key: Key, others: seq<Key>) {
    forall c :: c in calls ==> c.key == key || c.key in others
  }

  // As many keys as the table holds have come since: they alone are held.
  lemma OthersAreLatest(l: Limits, t: Table, u: Table, others: seq<Key>, key: Key)
    requires Together(l, t, u) && l.bound == AtMost(|others|)
    requires u.order == [key] + others && key !in others
    ensures key !in t.buckets
  {
    assert t.order == others;
  }

  // Behind as many others as the table holds, a key is forgotten.
  lemma BehindTheOthers(l: Limits, t: Table, u: Table, key: Key, others: seq<Key>, debt: real)
    requires l.Valid() && Together(l, t, u) && u.order == [key] && l.bound == AtMost(|others|) && debt >= 0.0
    requires Newcomers(others, [key], key)
    ensures var between := TakesOf(others, l.capacity); var after := AfterAll(l, t, between);
      && Settled(l, after, 0.0) && key !in after.buckets
      && Spent(l, t, between, key) == 0.0 && OwesAtMost(l, t, between, debt)
  {
    hide AfterAll, TakesOf, Spent, OwesAtMost, HoldsTheLatest, Settled;
    NewcomersTake(l, t, u, others, l.capacity, key, debt);
    var between := TakesOf(others, l.capacity);
    OthersAreLatest(l, AfterAll(l, t, between), AfterAll(Unforgetting(l), u, between), others, key);
  }

  /** However many keys the table holds, a key that takes all it has, is forgotten behind that many others, and takes
      again at the same moment, is granted twice its capacity: past any rate. */
  lemma AForgottenKeySpendsPastTheRate(l: Limits, key: Key, others: seq<Key>) returns (calls: seq<Call>)
    requires l.Valid() && l.bound == AtMost(|others|) && Distinct(others) && key !in others
    ensures Timely(calls, 0.0, 0.0) && Costs(calls) && (forall c :: c in calls ==> !c.Charge?)
    ensures CalledBy(calls, key, others)
    ensures Spent(l, EMPTY, calls, key) == 2.0 * l.capacity > l.capacity + Gain(l, 0.0, 0.0)
  {
    var own, between := TakesOf([key], l.capacity), TakesOf(others, l.capacity);
    calls := (own + between) + own;
    hide *;
    StartingEmpty(l, key, others);
    TakesAtOnce([key], others, l.capacity, key);
    OwnTake(l, EMPTY, EMPTY, key);
    var t, u := AfterAll(l, EMPTY, own), AfterAll(Unforgetting(l), EMPTY, own);
    assert u.order == [key];
    BehindTheOthers(l, t, u, key, others, 0.0);
    SpentInTurn(l, EMPTY, own, between, key);
    SpentInTurn(l, EMPTY, own + between, own, key);
    SpentWhenFull(l, AfterAll(l, t, between), key);
  }

  lemma SpentWhenFull(l: Limits, t: Table, key: Key)
    requires l.Valid() && key !in t.buckets
    ensures Spent(l, t, TakesOf([key], l.capacity), key) == l.capacity
  {
    var calls := TakesOf([key], l.capacity);
    assert calls[0] == Take(key, l.capacity, 0.0, 0.0) && calls[1..] == [];
    assert Spent(l, AfterCall(l, t, calls[0]), calls[1..], key) == 0.0;
  }

  lemma OwnTake(l: Limits, t: Table, u: Table, key: Key)
    requires Together(l, t, u) && key !in u.order
    ensures Together(l, AfterAll(l, t, TakesOf([key], l.capacity)),
      AfterAll(Unforgetting(l), u, TakesOf([key], l.capacity)))
    ensures AfterAll(Unforgetting(l), u, TakesOf([key], l.capacity)).order == u.order + [key]
    ensures Spent(l, t, TakesOf([key], l.capacity), key) == l.capacity
  {
    NewcomerTakes(l, t, u, key, l.capacity);
    SpentWhenFull(l, t, key);
    var calls := TakesOf([key], l.capacity);
    assert calls[0] == Take(key, l.capacity, 0.0, 0.0) && calls[1..] == [];
    hide AfterCall, Settled, HoldsTheLatest, Spent;
    assert AfterAll(l, AfterCall(l, t, calls[0]), []) == AfterCall(l, t, calls[0]);
    assert AfterAll(Unforgetting(l), AfterCall(Unforgetting(l), u, calls[0]), [])
      == AfterCall(Unforgetting(l), u, calls[0]);
  }

  lemma CalledInTurn(call: Call, others: seq<Key>, cost: real)
    ensures CalledBy(([call] + TakesOf(others, cost)) + [call], call.key, others)
  {
  }

  // Once the key is charged, the others' takes forget it.
  lemma OthersTakeAfterTheCharge(l: Limits, call: Call, others: seq<Key>, debt: real)
    requires l.Valid() && l.bound == AtMost(|others|) && Distinct(others) && call.key !in others && debt >= 0.0
    requires call == Charge(call.key, l.capacity + debt, 0.0)
    ensures var t, between := AfterCall(l, EMPTY, call), TakesOf(others, l.capacity);
      && Settled(l, AfterAll(l, t, between), 0.0) && call.key !in AfterAll(l, t, between).buckets
      && Spent(l, t, between, call.key) == 0.0 && OwesAtMost(l, t, between, debt)
  {
    assert call.cost >= 0.0;
    hide *;
    StartingEmpty(l, call.key, others);
    FirstCharge(l, call);
    BehindTheOthers(l, AfterCall(l, EMPTY, call), AfterCall(Unforgetting(l), EMPTY, call), call.key, others, debt);
  }

  // The key is forgotten behind the others, its budget spent.
  lemma ForgottenBehindTheOthers(l: Limits, call: Call, between: seq<Call>, debt: real)
    requires l.Valid() && debt >= 0.0 && call == Charge(call.key, l.capacity + debt, 0.0)
    requires OwesAtMost(l, AfterCall(l, EMPTY, call), between, debt)
    requires Spent(l, AfterCall(l, EMPTY, call), between, call.key) == 0.0
    ensures var calls := [call] + between;
      && AfterAll(l, EMPTY, calls) == AfterAll(l, AfterCall(l, EMPTY, call), between)
      && OwesAtMost(l, EMPTY, calls, debt) && Spent(l, EMPTY, calls, call.key) == call.cost
  {
    assert Settled(l, EMPTY, 0.0) && call.key !in EMPTY.buckets;
    hide *;
    ChargedWhenFull(l, EMPTY, call, debt);
    OneCallAlone(l, EMPTY, call, call.key, debt);
    OwedInTurn(l, EMPTY, [call], between, debt);
    SpentInTurn(l, EMPTY, [call], between, call.key);
  }

  lemma ChargedOnceMore(l: Limits, calls: seq<Call>, call: Call, debt: real)
    requires l.Valid() && call == Charge(call.key, l.capacity + debt, 0.0) && debt >= 0.0
    requires Settled(l, AfterAll(l, EMPTY, calls), 0.0) && call.key !in AfterAll(l, EMPTY, calls).buckets
    requires OwesAtMost(l, EMPTY, calls, debt)
    ensures OwesAtMost(l, EMPTY, calls + [call], debt)
    ensures Spent(l, EMPTY, calls + [call], call.key) == Spent(l, EMPTY, calls, call.key) + call.cost
  {
    var t := AfterAll(l, EMPTY, calls);
    assert call.End() == 0.0;
    hide *;
    ChargedWhenFull(l, t, call, debt);
    OneCallAlone(l, t, call, call.key, debt);
    OwedInTurn(l, EMPTY, calls, [call], debt);
    SpentInTurn(l, EMPTY, calls, [call], call.key);
  }

  /** A key charged all it has and the debt allowed, forgotten behind as many others as the table holds, and charged as
      much again at the same moment. */
  lemma AForgottenKeyIsChargedPastTheRate(l: Limits, key: Key, others: seq<Key>, debt: real)
    returns (calls: seq<Call>)
    requires l.Valid() && l.bound == AtMost(|others|) && Distinct(others) && key !in others && debt >= 0.0
    ensures RunsInto(l, [], calls, debt, 0.0, 0.0, 0.0) && CalledBy(calls, key, others)
    ensures Spent(l, EMPTY, calls, key) == 2.0 * (l.capacity + debt) > l.capacity + Gain(l, 0.0, 0.0) + debt
  {
    var call := Charge(key, l.capacity + debt, 0.0);
    var one := [call] + TakesOf(others, l.capacity);
    calls := one + [call];
    assert call.End() == 0.0;
    hide *;
    StartingEmpty(l, key, others);
    CalledInTurn(call, others, l.capacity);
    ChargedAtOnce(key, others, l.capacity + debt, l.capacity);
    OthersTakeAfterTheCharge(l, call, others, debt);
    ForgottenBehindTheOthers(l, call, TakesOf(others, l.capacity), debt);
    ChargedOnceMore(l, one, call, debt);
    RunFromTheStart(l, calls, debt);
  }

  lemma FirstCharge(l: Limits, call: Call)
    requires l.Valid() && call.Charge? && call.at == 0.0 <= call.cost
    ensures var t, u := AfterCall(l, EMPTY, call), AfterCall(Unforgetting(l), EMPTY, call);
      Together(l, t, u) && u.order == [call.key]
  {
    var free := Unforgetting(l);
    OneCallKeepsTheLatest(l, EMPTY, EMPTY, call, 0.0);
    OneCallSettles(l, EMPTY, call, 0.0);
    OneCallSettles(free, EMPTY, call, 0.0);
    CalledBucket(free, EMPTY, call, 0.0);
  }

  lemma RunFromTheStart(l: Limits, calls: seq<Call>, debt: real)
    requires l.refill > 0.0 && Timely(calls, 0.0, 0.0) && Costs(calls) && OwesAtMost(l, EMPTY, calls, debt)
    ensures RunsInto(l, [], calls, debt, 0.0, 0.0, 0.0)
  {
    assert [] + calls == calls;
  }

  lemma ChargedAtOnce(key: Key, others: seq<Key>, charge: real, cost: real)
    requires charge >= 0.0 && cost >= 0.0
    ensures var own := [Charge(key, charge, 0.0)]; var calls := (own + TakesOf(others, cost)) + own;
      Timely(calls, 0.0, 0.0) && Costs(calls)
  {
    var own := [Charge(key, charge, 0.0)];
    AtOnce((own + TakesOf(others, cost)) + own);
  }

  lemma ChargedWhenFull(l: Limits, t: Table, call: Call, debt: real)
    requires l.Valid() && call == Charge(call.key, l.capacity + debt, 0.0) && call.key !in t.buckets
    requires Settled(l, t, 0.0) && debt >= 0.0
    ensures Balance(l, AfterCall(l, t, call), call.key, 0.0) == 0.0 - debt
  {
    BalanceMoves(l, t, call.key, 0.0, 0.0);
    TouchedBuckets(l, t, call.key, 0.0);
    ChargingMovesOneBalance(l, t, call.key, call.cost, call.key, 0.0, 0.0);
  }

  lemma OneCallAlone(l: Limits, t: Table, call: Call, key: Key, debt: real)
    requires l.refill > 0.0
    ensures Spent(l, t, [call], key) == SpentByCall(l, t, call, key) && AfterAll(l, t, [call]) == AfterCall(l, t, call)
    ensures OwesAtMost(l, t, [call], debt) <==>
      Balance(l, AfterCall(l, t, call), call.key, call.End()) >= 0.0 - debt
    ensures call.Charge? && call.key == key ==> Spent(l, t, [call], key) == call.cost
  {
    assert [call][1..] == [];
  }

  // ------------------------------------------------------------------ how many keys a table takes

  ghost predicate WithinTheRate(l: Limits, before: seq<Call>, window: seq<Call>, key: Key, debt: real, from: real,
      to: real)
    requires l.refill > 0.0
  {
    Spent(l, AfterAll(l, EMPTY, before), window, key) <= l.capacity + Gain(l, from, to) + debt
  }

  /** Over every run with at most so many keys at once, in a window anywhere in it, every key keeps to the rate. */
  ghost predicate RateIsKept(l: Limits, debt: real, keys: nat)
    requires l.refill > 0.0
  {
    forall before, window, key, begun, from, to ::
      RunsInto(l, before, window, debt, begun, from, to) && FewKeysAtOnce(l, before + window, debt, keys) ==>
        WithinTheRate(l, before, window, key, debt, from, to)
  }

  lemma FewerKeysAtOnce(l: Limits, calls: seq<Call>, debt: real, fewer: nat, more: nat)
    requires l.refill > 0.0 && fewer <= more && FewKeysAtOnce(l, calls, debt, fewer)
    ensures FewKeysAtOnce(l, calls, debt, more)
  {
    hide KeysOf;
  }

  /** A name for each length, so no two of them alike. */
  function Named(length: nat): (name: Key)
    ensures |name| == length
  {
    seq(length, _ => 'a')
  }

  function Names(n: nat): (names: seq<Key>)
    ensures |names| == n
  {
    seq(n, i requires 0 <= i < n => Named(i + 1))
  }

  lemma NamesAreDistinct(n: nat)
    ensures Distinct(Names(n)) && Named(0) !in Names(n)
  {
    forall i | 0 <= i < n
      ensures |Names(n)[i]| == i + 1
    {
    }
  }

  lemma {:induction false} NoMoreKeysThanNames(keys: set<Key>, key: Key, others: seq<Key>)
    requires forall k :: k in keys ==> k == key || k in others
    ensures |keys| <= |others| + 1
    decreases |others|
  {
    if others == [] {
      assert keys <= {key};
      SubsetIsNoLarger(keys, {key});
    } else {
      NoMoreKeysThanNames(keys - {others[0]}, key, others[1..]);
    }
  }

  lemma FewCallers(l: Limits, calls: seq<Call>, key: Key, others: seq<Key>, debt: real, keys: nat)
    requires l.refill > 0.0 && CalledBy(calls, key, others) && |others| < keys
    ensures FewKeysAtOnce(l, calls, debt, keys)
  {
    forall i, j | 0 <= i <= j < |calls| && calls[j].at - calls[i].End() < (l.capacity + debt) / l.refill
      ensures |KeysOf(calls, i, j + 1)| <= keys
    {
      NoMoreKeysThanNames(KeysOf(calls, i, j + 1), key, others);
    }
  }

  /** The rate is kept over every run with at most so many keys at once, if and only if the table holds as many. */
  lemma TheRateIsKeptExactlyForFewKeys(l: Limits, debt: real, keys: nat)
    requires l.Valid() && l.bound.AtMost? && debt >= 0.0
    ensures RateIsKept(l, debt, keys) <==> keys <= l.bound.keys
  {
    if keys <= l.bound.keys {
      hide RunsInto, FewKeysAtOnce, Spent, AfterAll, Gain;
      forall before, window, key, begun, from, to |
        RunsInto(l, before, window, debt, begun, from, to) && FewKeysAtOnce(l, before + window, debt, keys)
        ensures WithinTheRate(l, before, window, key, debt, from, to)
      {
        FewerKeysAtOnce(l, before + window, debt, keys, l.bound.keys);
        FewKeysKeepTheRate(l, before, window, key, debt, begun, from, to);
      }
    } else {
      var key, others := Named(0), Names(l.bound.keys);
      NamesAreDistinct(l.bound.keys);
      var calls := AForgottenKeyIsChargedPastTheRate(l, key, others, debt);
      FewCallers(l, calls, key, others, debt, keys);
      assert [] + calls == calls && AfterAll(l, EMPTY, []) == EMPTY;
      assert !WithinTheRate(l, [], calls, key, debt, 0.0, 0.0);
      hide RunsInto, FewKeysAtOnce, Spent, Gain, AfterAll;
    }
  }

  /** A run of takes and questions alone, from an empty table into a window. */
  ghost predicate TakesInto(before: seq<Call>, window: seq<Call>, begun: real, from: real, to: real) {
    && Timely(before, begun, from) && Timely(window, from, to) && Costs(before + window)
    && forall c :: c in before + window ==> !c.Charge?
  }

  /** The same over every run that only takes. */
  ghost predicate TakesKeepTheRate(l: Limits, keys: nat)
    requires l.refill > 0.0
  {
    forall before, window, key, begun, from, to ::
      TakesInto(before, window, begun, from, to) && FewKeysAtOnce(l, before + window, 0.0, keys) ==>
        WithinTheRate(l, before, window, key, 0.0, from, to)
  }

  lemma TakesRunInto(l: Limits, before: seq<Call>, window: seq<Call>, begun: real, from: real, to: real)
    requires l.Valid() && TakesInto(before, window, begun, from, to)
    ensures RunsInto(l, before, window, 0.0, begun, from, to)
  {
    assert Settled(l, EMPTY, begun) && forall k :: Balance(l, EMPTY, k, begun) >= 0.0;
    hide Settled, Balance;
    TimelyInTurn(before, window, begun, from, to);
    TakesOweNothing(l, EMPTY, before + window, begun, to);
  }

  /** Where calls only take, the rate is kept over every run with at most so many keys at once, if and only if the table
      holds as many. */
  lemma TakesKeepTheRateExactlyForFewKeys(l: Limits, keys: nat)
    requires l.Valid() && l.bound.AtMost?
    ensures TakesKeepTheRate(l, keys) <==> keys <= l.bound.keys
  {
    if keys <= l.bound.keys {
      TheRateIsKeptExactlyForFewKeys(l, 0.0, keys);
      hide TakesInto, RunsInto, FewKeysAtOnce, WithinTheRate;
      forall before, window, key, begun, from, to |
        TakesInto(before, window, begun, from, to) && FewKeysAtOnce(l, before + window, 0.0, keys)
        ensures WithinTheRate(l, before, window, key, 0.0, from, to)
      {
        TakesRunInto(l, before, window, begun, from, to);
      }
    } else {
      var key, others := Named(0), Names(l.bound.keys);
      NamesAreDistinct(l.bound.keys);
      var calls := AForgottenKeySpendsPastTheRate(l, key, others);
      FewCallers(l, calls, key, others, 0.0, keys);
      assert [] + calls == calls && AfterAll(l, EMPTY, []) == EMPTY;
      assert TakesInto([], calls, 0.0, 0.0, 0.0) && !WithinTheRate(l, [], calls, key, 0.0, 0.0, 0.0);
      hide TakesInto, FewKeysAtOnce, WithinTheRate;
    }
  }
}
