/** The refilling budget of `TokenBudget` (src/sampleserver/visitors.py), its bounded table and its waits.
    Tokens and times are real numbers, and every call carries the times it read off the clock. */
module Budgets {
  type Key = string

  datatype Bucket = Bucket(tokens: real, updatedAt: real)

  // How many keys are held at once; `Unbounded` is the table that forgets no one, for comparison.
  datatype Bound = AtMost(keys: nat) | Unbounded

  datatype Limits = Limits(capacity: real, refill: real, bound: Bound) {
    ghost predicate Valid() {
      capacity > 0.0 && refill > 0.0 && (bound.AtMost? ==> bound.keys >= 1)
    }
  }

  /** The buckets held, and their keys from the one idle longest to the one used last. */
  datatype Table = Table(order: seq<Key>, buckets: map<Key, Bucket>)

  const EMPTY: Table := Table([], map[])

  function Gain(l: Limits, from: real, to: real): real {
    (to - from) * l.refill
  }

  function Min(a: real, b: real): real {
    if a <= b then a else b
  }

  function Refill(l: Limits, b: Bucket, now: real): Bucket {
    Bucket(Min(l.capacity, b.tokens + Gain(l, b.updatedAt, now)), now)
  }

  /** What a call at `now` finds in `key`'s bucket: a key not held starts full. */
  function BucketOf(l: Limits, t: Table, key: Key, now: real): Bucket {
    if key in t.buckets then Refill(l, t.buckets[key], now) else Bucket(l.capacity, now)
  }

  function Balance(l: Limits, t: Table, key: Key, now: real): real {
    BucketOf(l, t, key, now).tokens
  }

  function Without(order: seq<Key>, key: Key): seq<Key> {
    if order == [] then []
    else if order[0] == key then Without(order[1..], key)
    else [order[0]] + Without(order[1..], key)
  }

  function Used(l: Limits, t: Table, key: Key, now: real): Table {
    Table(Without(t.order, key) + [key], t.buckets[key := BucketOf(l, t, key, now)])
  }

  function Trimmed(bound: Bound, t: Table): Table
    decreases |t.order|
  {
    if bound.AtMost? && |t.order| > bound.keys
    then Trimmed(bound, Table(t.order[1..], t.buckets - {t.order[0]}))
    else t
  }

  function Touched(l: Limits, t: Table, key: Key, now: real): Table {
    Trimmed(l.bound, Used(l, t, key, now))
  }

  function Charged(l: Limits, t: Table, key: Key, cost: real, now: real): Table {
    var touched := Touched(l, t, key, now);
    if key in touched.buckets
    then touched.(buckets := touched.buckets[key := Bucket(touched.buckets[key].tokens - cost, now)])
    else touched
  }

  datatype Answer = Granted | After(seconds: real)

  function WaitAt(l: Limits, t: Table, key: Key, balance: real, now: real): Answer
    requires l.refill > 0.0
  {
    if Balance(l, t, key, now) >= balance then Granted
    else After((balance - Balance(l, t, key, now)) / l.refill)
  }

  /** One call, with each time it reads off the clock. `Take` reads it once to ask and once to spend. */
  datatype Call =
    | WaitFor(key: Key, balance: real, at: real)
    | Charge(key: Key, cost: real, at: real)
    | Take(key: Key, cost: real, at: real, later: real)
  {
    function End(): real {
      if Take? then later else at
    }
  }

  function AnswerTo(l: Limits, t: Table, call: Call): Answer
    requires l.refill > 0.0
  {
    match call
    case WaitFor(key, balance, at) => WaitAt(l, t, key, balance, at)
    case Charge(_, _, _) => Granted
    case Take(key, cost, at, _) => WaitAt(l, t, key, cost, at)
  }

  function AfterCall(l: Limits, t: Table, call: Call): Table
    requires l.refill > 0.0
  {
    match call
    case WaitFor(key, _, at) => Touched(l, t, key, at)
    case Charge(key, cost, at) => Charged(l, t, key, cost, at)
    case Take(key, cost, at, later) =>
      if WaitAt(l, t, key, cost, at) == Granted
      then Charged(l, Touched(l, t, key, at), key, cost, later)
      else Touched(l, t, key, at)
  }

  /** What a call spends of `key`'s budget. */
  function SpentByCall(l: Limits, t: Table, call: Call, key: Key): real
    requires l.refill > 0.0
  {
    if call.key != key || call.WaitFor? || AnswerTo(l, t, call) != Granted then 0.0 else call.cost
  }

  function AfterAll(l: Limits, t: Table, calls: seq<Call>): Table
    requires l.refill > 0.0
    decreases |calls|
  {
    if calls == [] then t else AfterAll(l, AfterCall(l, t, calls[0]), calls[1..])
  }

  function Answers(l: Limits, t: Table, calls: seq<Call>): seq<Answer>
    requires l.refill > 0.0
    decreases |calls|
  {
    if calls == [] then [] else [AnswerTo(l, t, calls[0])] + Answers(l, AfterCall(l, t, calls[0]), calls[1..])
  }

  function Spent(l: Limits, t: Table, calls: seq<Call>, key: Key): real
    requires l.refill > 0.0
    decreases |calls|
  {
    if calls == [] then 0.0 else SpentByCall(l, t, calls[0], key) + Spent(l, AfterCall(l, t, calls[0]), calls[1..], key)
  }

  /** The clock never runs back, and the calls read it from `from` to `to`. */
  ghost predicate Timely(calls: seq<Call>, from: real, to: real)
    decreases |calls|
  {
    if calls == [] then from <= to
    else from <= calls[0].at <= calls[0].End() && Timely(calls[1..], calls[0].End(), to)
  }

  // ------------------------------------------------------------------ the table

  ghost predicate OneEach(t: Table) {
    && (forall i, j :: 0 <= i < j < |t.order| ==> t.order[i] != t.order[j])
    && (forall k :: k in t.order <==> k in t.buckets)
  }

  // Idlest first, nothing used after `now`, and no bucket past the capacity.
  ghost predicate ByLastUse(l: Limits, t: Table, now: real) {
    && (forall i, j :: 0 <= i < j < |t.order| && t.order[i] in t.buckets && t.order[j] in t.buckets ==>
          t.buckets[t.order[i]].updatedAt <= t.buckets[t.order[j]].updatedAt)
    && (forall k :: k in t.buckets ==> t.buckets[k].updatedAt <= now && t.buckets[k].tokens <= l.capacity)
  }

  ghost predicate WithinBound(bound: Bound, t: Table) {
    bound.AtMost? ==> |t.order| <= bound.keys
  }

  ghost predicate ValidTable(l: Limits, t: Table, now: real) {
    OneEach(t) && ByLastUse(l, t, now) && WithinBound(l.bound, t)
  }

  lemma {:induction false} WithoutKeepsTheRest(order: seq<Key>, key: Key)
    requires forall i, j :: 0 <= i < j < |order| ==> order[i] != order[j]
    ensures forall k :: k in Without(order, key) <==> k in order && k != key
    ensures forall i, j :: 0 <= i < j < |Without(order, key)| ==> Without(order, key)[i] != Without(order, key)[j]
    ensures |Without(order, key)| == if key in order then |order| - 1 else |order|
  {
    if order != [] {
      var rest := order[1..];
      WithoutKeepsTheRest(rest, key);
      assert forall k :: k in order <==> k == order[0] || k in rest;
      assert order[0] !in rest;
    }
  }

  lemma {:induction false} WithoutKeepsTheOrder(t: Table, order: seq<Key>, key: Key)
    requires forall k :: k in order ==> k in t.buckets
    requires forall i, j :: 0 <= i < j < |order| ==> t.buckets[order[i]].updatedAt <= t.buckets[order[j]].updatedAt
    ensures forall k :: k in Without(order, key) ==> k in order
    ensures forall i, j :: 0 <= i < j < |Without(order, key)| ==>
      t.buckets[Without(order, key)[i]].updatedAt <= t.buckets[Without(order, key)[j]].updatedAt
  {
    if order != [] {
      var rest := order[1..];
      WithoutKeepsTheOrder(t, rest, key);
      forall k | k in rest
        ensures t.buckets[order[0]].updatedAt <= t.buckets[k].updatedAt
      {
        var i :| 0 <= i < |rest| && rest[i] == k;
        assert order[i + 1] == k;
      }
    }
  }

  lemma UsingKeepsTheTable(l: Limits, t: Table, key: Key, before: real, now: real)
    requires l.Valid() && ValidTable(l, t, before) && before <= now
    ensures OneEach(Used(l, t, key, now)) && ByLastUse(l, Used(l, t, key, now), now)
    ensures l.bound.AtMost? ==> |Used(l, t, key, now).order| <= l.bound.keys + 1
  {
    WithoutKeepsTheRest(t.order, key);
    WithoutKeepsTheOrder(t, t.order, key);
    var used := Used(l, t, key, now);
    var rest := Without(t.order, key);
    forall i, j | 0 <= i < j < |used.order|
      ensures used.buckets[used.order[i]].updatedAt <= used.buckets[used.order[j]].updatedAt
    {
      assert used.order[i] == rest[i] && rest[i] in t.order && rest[i] != key;
      if j < |rest| {
        assert used.order[j] == rest[j] && rest[j] != key;
      }
    }
  }

  lemma {:induction false} WithoutAStranger(order: seq<Key>, key: Key)
    requires key !in order
    ensures Without(order, key) == order
  {
    if order != [] {
      WithoutAStranger(order[1..], key);
    }
  }

  // A table that overflows held no bucket for the key, and lets its first key go.
  lemma Overflowing(l: Limits, t: Table, key: Key, now: real)
    requires l.Valid() && OneEach(t) && WithinBound(l.bound, t)
    requires l.bound.AtMost? && |Used(l, t, key, now).order| > l.bound.keys
    ensures t.order != [] && key !in t.order && key !in t.buckets
    ensures Touched(l, t, key, now)
         == Table(t.order[1..] + [key], t.buckets[key := Bucket(l.capacity, now)] - {t.order[0]})
  {
    assert key !in t.order by { WithoutKeepsTheRest(t.order, key); }
    WithoutAStranger(t.order, key);
    var used := Used(l, t, key, now);
    assert key !in t.buckets;
    hide Without, OneEach;
    assert used == Table(t.order + [key], t.buckets[key := Bucket(l.capacity, now)]);
    assert used.order[1..] == t.order[1..] + [key] && used.order[0] == t.order[0];
    var rest := Table(used.order[1..], used.buckets - {used.order[0]});
    assert Trimmed(l.bound, rest) == rest;
  }

  lemma Fitting(l: Limits, t: Table, key: Key, now: real)
    requires !(l.bound.AtMost? && |Used(l, t, key, now).order| > l.bound.keys)
    ensures Touched(l, t, key, now) == Used(l, t, key, now)
  {
  }

  lemma IdlestComesFirst(l: Limits, t: Table, now: real, k: Key)
    requires ValidTable(l, t, now) && k in t.buckets
    ensures t.order != [] && t.order[0] in t.buckets
    ensures t.buckets[t.order[0]].updatedAt <= t.buckets[k].updatedAt
  {
    var i :| 0 <= i < |t.order| && t.order[i] == k;
  }

  /** A touched table stays in order of last use and within its bound, holding the key touched. */
  lemma TouchingKeepsTheTable(l: Limits, t: Table, key: Key, before: real, now: real)
    requires l.Valid() && ValidTable(l, t, before) && before <= now
    ensures ValidTable(l, Touched(l, t, key, now), now)
  {
    UsingKeepsTheTable(l, t, key, before, now);
    var used := Used(l, t, key, now);
    if l.bound.AtMost? && |used.order| > l.bound.keys {
      Overflowing(l, t, key, now);
      WithoutAStranger(t.order, key);
      var touched := Touched(l, t, key, now);
      assert used.order == [t.order[0]] + touched.order;
      assert touched.buckets == used.buckets - {t.order[0]};
      DroppingTheFirst(l, used, now);
    } else {
      Fitting(l, t, key, now);
    }
  }

  lemma DroppingTheFirst(l: Limits, t: Table, now: real)
    requires OneEach(t) && ByLastUse(l, t, now) && t.order != []
    ensures OneEach(Table(t.order[1..], t.buckets - {t.order[0]}))
    ensures ByLastUse(l, Table(t.order[1..], t.buckets - {t.order[0]}), now)
  {
    DroppingKeepsOneEach(t);
    DroppingKeepsTheOrder(l, t, now);
  }

  lemma DroppingKeepsOneEach(t: Table)
    requires OneEach(t) && t.order != []
    ensures OneEach(Table(t.order[1..], t.buckets - {t.order[0]}))
  {
    var rest := t.order[1..];
    assert t.order == [t.order[0]] + rest;
    assert t.order[0] !in rest;
    forall k
      ensures k in rest <==> k in t.buckets - {t.order[0]}
    {
      assert k in t.order <==> k == t.order[0] || k in rest;
    }
  }

  lemma DroppingKeepsTheOrder(l: Limits, t: Table, now: real)
    requires ByLastUse(l, t, now) && t.order != []
    ensures ByLastUse(l, Table(t.order[1..], t.buckets - {t.order[0]}), now)
  {
    var dropped := Table(t.order[1..], t.buckets - {t.order[0]});
    forall i, j | 0 <= i < j < |dropped.order| && dropped.order[i] in dropped.buckets
        && dropped.order[j] in dropped.buckets
      ensures dropped.buckets[dropped.order[i]].updatedAt <= dropped.buckets[dropped.order[j]].updatedAt
    {
      assert t.order[i + 1] == dropped.order[i] && t.order[j + 1] == dropped.order[j];
    }
  }

  lemma TouchedBuckets(l: Limits, t: Table, key: Key, now: real)
    requires l.Valid() && OneEach(t) && WithinBound(l.bound, t)
    ensures var after := Touched(l, t, key, now).buckets;
      && key in after && after[key] == BucketOf(l, t, key, now)
      && (forall k :: k in after && k != key ==> k in t.buckets && after[k] == t.buckets[k])
      && (forall k :: k in t.buckets && k !in after ==> t.order != [] && k == t.order[0])
  {
    if l.bound.AtMost? && |Used(l, t, key, now).order| > l.bound.keys {
      Overflowing(l, t, key, now);
      assert t.order[0] in t.order;
    } else {
      Fitting(l, t, key, now);
    }
  }

  /** At most one key is forgotten by a call, and no key held was used longer ago. */
  lemma TheIdlestIsForgotten(l: Limits, t: Table, key: Key, now: real, later: real, gone: Key, other: Key)
    requires l.Valid() && ValidTable(l, t, now)
    requires gone in t.buckets && gone !in Touched(l, t, key, later).buckets
    requires other in t.buckets
    ensures t.buckets[gone].updatedAt <= t.buckets[other].updatedAt
    ensures other !in Touched(l, t, key, later).buckets ==> other == gone
  {
    TouchedBuckets(l, t, key, later);
    IdlestComesFirst(l, t, now, other);
  }
}

/** What a budget promises over whole runs of calls. */
module BudgetLaws {
  import opened RealArithmetic
  import opened Budgets

  lemma Gains(l: Limits, a: real, b: real, c: real)
    requires l.refill > 0.0 && a <= b <= c
    ensures 0.0 <= Gain(l, a, b) <= Gain(l, a, c) == Gain(l, a, b) + Gain(l, b, c)
  {
    assert (b - a) * l.refill >= 0.0 && (c - b) * l.refill >= 0.0;
    assert (c - a) * l.refill == (b - a) * l.refill + (c - b) * l.refill;
  }

  lemma RefillingTwice(l: Limits, b: Bucket, now: real, later: real)
    requires l.refill > 0.0 && b.updatedAt <= now <= later
    ensures Refill(l, Refill(l, b, now), later) == Refill(l, b, later)
    ensures Refill(l, b, later).tokens <= Refill(l, b, now).tokens + Gain(l, now, later)
    ensures Refill(l, b, now).tokens <= Refill(l, b, later).tokens
  {
    Gains(l, b.updatedAt, now, later);
    Gains(l, now, later, later);
    hide Gain;
  }

  // The buckets hold no time to come and no more than the capacity.
  ghost predicate Settled(l: Limits, t: Table, now: real) {
    l.Valid() && ValidTable(l, t, now)
  }

  lemma BalanceMoves(l: Limits, t: Table, key: Key, now: real, later: real)
    requires Settled(l, t, now) && now <= later
    ensures Balance(l, t, key, now) <= Balance(l, t, key, later) <= Balance(l, t, key, now) + Gain(l, now, later)
    ensures Balance(l, t, key, later) <= l.capacity
  {
    Gains(l, now, later, later);
    if key in t.buckets {
      RefillingTwice(l, t.buckets[key], now, later);
    }
  }

  /** Asking and taking are answered alike: granted exactly while the balance reaches what is needed, and otherwise with
      the time in which the refill makes up the difference. A charge is never refused. */
  lemma AnswersArePlain(l: Limits, t: Table, key: Key, needed: real, at: real, later: real)
    requires l.refill > 0.0
    ensures AnswerTo(l, t, Take(key, needed, at, later)) == AnswerTo(l, t, WaitFor(key, needed, at))
    ensures var answer := AnswerTo(l, t, WaitFor(key, needed, at));
      && (answer == Granted <==> Balance(l, t, key, at) >= needed)
      && (answer.After? ==> answer.seconds * l.refill == needed - Balance(l, t, key, at))
    ensures AnswerTo(l, t, Charge(key, needed, at)) == Granted
  {
    hide Balance;
  }

  /** A run's answers are its calls' own, each over the table the calls before it left. */
  lemma {:induction false} AnswersInTurn(l: Limits, t: Table, calls: seq<Call>, k: nat)
    requires l.refill > 0.0 && k < |calls|
    ensures |Answers(l, t, calls)| == |calls|
    ensures Answers(l, t, calls)[k] == AnswerTo(l, AfterAll(l, t, calls[..k]), calls[k])
    ensures AfterAll(l, t, calls[..k + 1]) == AfterCall(l, AfterAll(l, t, calls[..k]), calls[k])
    decreases k
  {
    hide AnswerTo, AfterCall;
    AsManyAnswers(l, t, calls);
    if k > 0 {
      AnswersInTurn(l, AfterCall(l, t, calls[0]), calls[1..], k - 1);
      assert calls[..k][1..] == calls[1..][..k - 1] && calls[..k + 1][1..] == calls[1..][..k];
    } else {
      assert calls[..1][1..] == [];
    }
  }

  lemma {:induction false} AsManyAnswers(l: Limits, t: Table, calls: seq<Call>)
    requires l.refill > 0.0
    ensures |Answers(l, t, calls)| == |calls|
    decreases |calls|
  {
    if calls != [] {
      AsManyAnswers(l, AfterCall(l, t, calls[0]), calls[1..]);
    }
  }

  /** What a key can spend at a moment: all of the capacity where it is not held, and otherwise what its last use left
      and what came in since at the refill's rate, up to the capacity. */
  lemma BalancesRefill(l: Limits, t: Table, key: Key, now: real)
    ensures key !in t.buckets ==> Balance(l, t, key, now) == l.capacity
    ensures key in t.buckets ==>
      var b := t.buckets[key];
      if b.tokens + (now - b.updatedAt) * l.refill <= l.capacity
      then Balance(l, t, key, now) == b.tokens + (now - b.updatedAt) * l.refill
      else Balance(l, t, key, now) == l.capacity
  {
  }

  lemma TouchingMovesNoBalance(l: Limits, t: Table, touched: Key, key: Key, now: real, later: real)
    requires Settled(l, t, now) && now <= later
    requires key in t.buckets ==> key in Touched(l, t, touched, now).buckets
    ensures Balance(l, Touched(l, t, touched, now), key, later) == Balance(l, t, key, later)
    ensures Settled(l, Touched(l, t, touched, now), now)
  {
    TouchedBuckets(l, t, touched, now);
    TouchingKeepsTheTable(l, t, touched, now, now);
    Gains(l, now, later, later);
    if key in t.buckets {
      RefillingTwice(l, t.buckets[key], now, later);
    }
  }

  lemma SpendingKeepsTheTable(l: Limits, t: Table, key: Key, tokens: real, now: real)
    requires Settled(l, t, now) && key in t.buckets
    requires t.buckets[key].updatedAt == now && tokens <= t.buckets[key].tokens
    ensures Settled(l, t.(buckets := t.buckets[key := Bucket(tokens, now)]), now)
  {
  }

  lemma ChargedTable(l: Limits, t: Table, key: Key, cost: real, now: real)
    requires Settled(l, t, now) && cost >= 0.0
    ensures var touched, after := Touched(l, t, key, now), Charged(l, t, key, cost, now);
      && key in touched.buckets && touched.buckets[key] == BucketOf(l, t, key, now)
      && after == touched.(buckets := touched.buckets[key := Bucket(Balance(l, t, key, now) - cost, now)])
    ensures Settled(l, Charged(l, t, key, cost, now), now)
  {
    hide Touched, BucketOf, OneEach, ByLastUse, WithinBound, Balance;
    TouchedBuckets(l, t, key, now);
    TouchingKeepsTheTable(l, t, key, now, now);
    BucketsAreStamped(l, t, key, now);
    SpendingKeepsTheTable(l, Touched(l, t, key, now), key, Balance(l, t, key, now) - cost, now);
  }

  lemma BucketsAreStamped(l: Limits, t: Table, key: Key, now: real)
    ensures BucketOf(l, t, key, now) == Bucket(Balance(l, t, key, now), now)
  {
  }

  lemma ChargingMovesOneBalance(l: Limits, t: Table, charged: Key, cost: real, key: Key, now: real, later: real)
    requires Settled(l, t, now) && now <= later && cost >= 0.0
    requires key in t.buckets ==> key in Touched(l, t, charged, now).buckets
    ensures Settled(l, Charged(l, t, charged, cost, now), now)
    ensures key != charged || cost == 0.0 ==>
      Balance(l, Charged(l, t, charged, cost, now), key, later) == Balance(l, t, key, later)
    ensures key == charged ==> Balance(l, Charged(l, t, charged, cost, now), key, now) == Balance(l, t, key, now) - cost
  {
    ChargedTable(l, t, charged, cost, now);
    TouchingMovesNoBalance(l, t, charged, key, now, later);
    var touched, after := Touched(l, t, charged, now), Charged(l, t, charged, cost, now);
    if key == charged {
      BucketsAreStamped(l, t, key, now);
      BalanceMoves(l, t, key, now, now);
      Gains(l, now, now, now);
      if cost == 0.0 {
        assert after.buckets == touched.buckets;
      }
    }
  }

  /** No call forgets `key` while its bucket is held. */
  ghost predicate Remembers(l: Limits, t: Table, calls: seq<Call>, key: Key)
    requires l.refill > 0.0
    decreases |calls|
  {
    calls != [] ==>
      && (key in t.buckets ==> key in AfterCall(l, t, calls[0]).buckets)
      && Remembers(l, AfterCall(l, t, calls[0]), calls[1..], key)
  }

  ghost predicate Costs(calls: seq<Call>) {
    forall c :: c in calls && !c.WaitFor? ==> c.cost >= 0.0
  }

  // One key's bucket is held throughout a call, between its two touches as after them.
  lemma HeldWithin(l: Limits, t: Table, call: Call, key: Key)
    requires Settled(l, t, call.at) && call.at <= call.End()
    requires key in t.buckets ==> key in AfterCall(l, t, call).buckets
    requires !call.WaitFor? ==> call.cost >= 0.0
    ensures key in t.buckets ==> key in Touched(l, t, call.key, call.at).buckets
    ensures call.Take? && AnswerTo(l, t, call) == Granted && key in Touched(l, t, call.key, call.at).buckets ==>
      key in Touched(l, Touched(l, t, call.key, call.at), call.key, call.later).buckets
  {
    TouchedBuckets(l, t, call.key, call.at);
    TouchingKeepsTheTable(l, t, call.key, call.at, call.at);
    if call.Take? && AnswerTo(l, t, call) == Granted {
      var touched := Touched(l, t, call.key, call.at);
      SettledLater(l, touched, call.at, call.later);
      ChargedTable(l, touched, call.key, call.cost, call.later);
      TouchedBuckets(l, touched, call.key, call.later);
    } else if call.Charge? {
      ChargedTable(l, t, call.key, call.cost, call.at);
    }
  }

  /** One call's spending comes out of the balance and what refills meanwhile. */
  lemma OneCallBalances(l: Limits, t: Table, call: Call, key: Key, from: real)
    requires Settled(l, t, from) && from <= call.at <= call.End()
    requires key in t.buckets ==> key in AfterCall(l, t, call).buckets
    requires !call.WaitFor? ==> call.cost >= 0.0
    ensures Settled(l, AfterCall(l, t, call), call.End())
    ensures SpentByCall(l, t, call, key) >= 0.0
    ensures SpentByCall(l, t, call, key) + Balance(l, AfterCall(l, t, call), key, call.End())
         <= Balance(l, t, key, from) + Gain(l, from, call.End())
    ensures SpentByCall(l, t, call, key) == 0.0 ==> forall later :: later >= call.End() ==>
      Balance(l, AfterCall(l, t, call), key, later) == Balance(l, t, key, later)
  {
    var at, end := call.at, call.End();
    SettledLater(l, t, from, at);
    BalanceMoves(l, t, key, from, at);
    HeldWithin(l, t, call, key);
    Gains(l, from, at, end);
    hide Touched, Charged, Balance, Gain, ValidTable;
    match call
    case WaitFor(asked, _, _) =>
      TouchKeepsBalances(l, t, asked, key, at);
    case Charge(charged, cost, _) =>
      ChargeKeepsBalances(l, t, charged, cost, key, at);
    case Take(taken, cost, _, later) =>
      TouchKeepsBalances(l, t, taken, key, at);
      var touched := Touched(l, t, taken, at);
      SettledLater(l, touched, at, later);
      BalanceMoves(l, touched, key, at, later);
      if AnswerTo(l, t, call) == Granted {
        ChargeKeepsBalances(l, touched, taken, cost, key, later);
      }
  }

  lemma SettledLater(l: Limits, t: Table, now: real, later: real)
    requires Settled(l, t, now) && now <= later
    ensures Settled(l, t, later)
  {
  }

  lemma TouchKeepsBalances(l: Limits, t: Table, touched: Key, key: Key, now: real)
    requires Settled(l, t, now)
    requires key in t.buckets ==> key in Touched(l, t, touched, now).buckets
    ensures Settled(l, Touched(l, t, touched, now), now)
    ensures forall later :: later >= now ==>
      Balance(l, Touched(l, t, touched, now), key, later) == Balance(l, t, key, later)
  {
    TouchingMovesNoBalance(l, t, touched, key, now, now);
    forall later | later >= now
      ensures Balance(l, Touched(l, t, touched, now), key, later) == Balance(l, t, key, later)
    {
      TouchingMovesNoBalance(l, t, touched, key, now, later);
    }
  }

  lemma ChargeKeepsBalances(l: Limits, t: Table, charged: Key, cost: real, key: Key, now: real)
    requires Settled(l, t, now) && cost >= 0.0
    requires key in t.buckets ==> key in Touched(l, t, charged, now).buckets
    ensures Settled(l, Charged(l, t, charged, cost, now), now)
    ensures key == charged ==> Balance(l, Charged(l, t, charged, cost, now), key, now) == Balance(l, t, key, now) - cost
    ensures key != charged || cost == 0.0 ==> forall later :: later >= now ==>
      Balance(l, Charged(l, t, charged, cost, now), key, later) == Balance(l, t, key, later)
  {
    ChargingMovesOneBalance(l, t, charged, cost, key, now, now);
    if key != charged || cost == 0.0 {
      forall later | later >= now
        ensures Balance(l, Charged(l, t, charged, cost, now), key, later) == Balance(l, t, key, later)
      {
        ChargingMovesOneBalance(l, t, charged, cost, key, now, later);
      }
    }
  }

  // ------------------------------------------------------------------ the rate

  lemma {:induction false} SpendingComesOutOfTheBalance(l: Limits, t: Table, calls: seq<Call>, key: Key, from: real,
      to: real)
    requires Settled(l, t, from) && Timely(calls, from, to) && Costs(calls) && Remembers(l, t, calls, key)
    ensures Settled(l, AfterAll(l, t, calls), to)
    ensures Spent(l, t, calls, key) >= 0.0
    ensures Spent(l, t, calls, key) + Balance(l, AfterAll(l, t, calls), key, to)
      <= Balance(l, t, key, from) + Gain(l, from, to)
    decreases |calls|
  {
    if calls == [] {
      SettledLater(l, t, from, to);
      BalanceMoves(l, t, key, from, to);
    } else {
      hide Balance, Gain, AfterCall, SpentByCall, ValidTable, Settled;
      var call, rest := calls[0], calls[1..];
      assert call in calls;
      TimelyEnds(rest, call.End(), to);
      RemembersOne(l, t, calls, key);
      OneCallBalances(l, t, call, key, from);
      SpendingComesOutOfTheBalance(l, AfterCall(l, t, call), rest, key, call.End(), to);
      Gains(l, from, call.End(), to);
    }
  }

  lemma RemembersOne(l: Limits, t: Table, calls: seq<Call>, key: Key)
    requires l.refill > 0.0 && calls != [] && Remembers(l, t, calls, key)
    ensures key in t.buckets ==> key in AfterCall(l, t, calls[0]).buckets
    ensures Remembers(l, AfterCall(l, t, calls[0]), calls[1..], key)
  {
  }

  lemma {:induction false} TimelyEnds(calls: seq<Call>, from: real, to: real)
    requires Timely(calls, from, to)
    ensures from <= to
    decreases |calls|
  {
    if calls != [] {
      TimelyEnds(calls[1..], calls[0].End(), to);
    }
  }

  ghost predicate TakenAlone(calls: seq<Call>, key: Key) {
    forall c :: c in calls && c.key == key ==> !c.Charge?
  }

  lemma TakingLeavesNoDebt(l: Limits, t: Table, call: Call, key: Key, from: real)
    requires Settled(l, t, from) && from <= call.at <= call.End()
    requires !call.WaitFor? ==> call.cost >= 0.0
    requires !(call.key == key && call.Charge?) && Balance(l, t, key, from) >= 0.0
    ensures Settled(l, AfterCall(l, t, call), call.End()) && Balance(l, AfterCall(l, t, call), key, call.End()) >= 0.0
  {
    var at, end := call.at, call.End();
    OneCallSettles(l, t, call, from);
    BalanceMoves(l, t, key, from, at);
    SettledLater(l, t, from, at);
    if key in t.buckets && key !in AfterCall(l, t, call).buckets {
    } else {
      HeldWithin(l, t, call, key);
      OneCallBalances(l, t, call, key, from);
      hide Touched, Charged, Balance, Gain, ValidTable;
      if call.Take? && call.key == key && AnswerTo(l, t, call) == Granted {
        var touched := Touched(l, t, key, at);
        TouchKeepsBalances(l, t, key, key, at);
        SettledLater(l, touched, at, end);
        BalanceMoves(l, touched, key, at, end);
        ChargeKeepsBalances(l, touched, key, call.cost, key, end);
      } else {
        BalanceMoves(l, t, key, at, end);
        assert SpentByCall(l, t, call, key) == 0.0;
      }
    }
  }

  lemma OneCallSettles(l: Limits, t: Table, call: Call, from: real)
    requires Settled(l, t, from) && from <= call.at <= call.End()
    requires !call.WaitFor? ==> call.cost >= 0.0
    ensures Settled(l, AfterCall(l, t, call), call.End())
  {
    SettledLater(l, t, from, call.at);
    TouchingKeepsTheTable(l, t, call.key, call.at, call.at);
    hide ValidTable, Touched, Charged;
    if call.Charge? {
      ChargedTable(l, t, call.key, call.cost, call.at);
    } else if call.Take? {
      var touched := Touched(l, t, call.key, call.at);
      SettledLater(l, touched, call.at, call.later);
      if AnswerTo(l, t, call) == Granted {
        ChargedTable(l, touched, call.key, call.cost, call.later);
      }
    }
  }

  lemma {:induction false} TakesLeaveNoDebt(l: Limits, t: Table, calls: seq<Call>, key: Key, from: real, to: real)
    requires Settled(l, t, from) && Timely(calls, from, to) && Costs(calls) && TakenAlone(calls, key)
    requires Balance(l, t, key, from) >= 0.0
    ensures Settled(l, AfterAll(l, t, calls), to) && Balance(l, AfterAll(l, t, calls), key, to) >= 0.0
    decreases |calls|
  {
    if calls == [] {
      SettledLater(l, t, from, to);
      BalanceMoves(l, t, key, from, to);
    } else {
      hide Balance, AfterCall, ValidTable, Settled;
      assert calls[0] in calls;
      TakingLeavesNoDebt(l, t, calls[0], key, from);
      TakesLeaveNoDebt(l, AfterCall(l, t, calls[0]), calls[1..], key, calls[0].End(), to);
    }
  }

  /** Over any window, what is granted to a key that stays remembered is at most the capacity and
      what refills over the window, and the balance never goes below nothing. */
  lemma GrantsStayWithinTheRate(l: Limits, t: Table, calls: seq<Call>, key: Key, from: real, to: real)
    requires Settled(l, t, from) && Timely(calls, from, to) && Costs(calls) && Remembers(l, t, calls, key)
    requires TakenAlone(calls, key) && Balance(l, t, key, from) >= 0.0
    ensures Spent(l, t, calls, key) <= l.capacity + Gain(l, from, to)
    ensures Balance(l, AfterAll(l, t, calls), key, to) >= 0.0
  {
    BalanceMoves(l, t, key, from, from);
    hide Balance, ValidTable, Settled;
    SpendingComesOutOfTheBalance(l, t, calls, key, from, to);
    TakesLeaveNoDebt(l, t, calls, key, from, to);
  }

  // ------------------------------------------------------------------ the waits

  ghost predicate Quiet(l: Limits, t: Table, calls: seq<Call>, key: Key)
    requires l.refill > 0.0
    decreases |calls|
  {
    calls != [] ==> SpentByCall(l, t, calls[0], key) == 0.0 && Quiet(l, AfterCall(l, t, calls[0]), calls[1..], key)
  }

  lemma {:induction false} QuietRunsMoveNoBalance(l: Limits, t: Table, calls: seq<Call>, key: Key, from: real, to: real)
    requires Settled(l, t, from) && Timely(calls, from, to) && Costs(calls)
    requires Remembers(l, t, calls, key) && Quiet(l, t, calls, key)
    ensures Balance(l, AfterAll(l, t, calls), key, to) == Balance(l, t, key, to)
    decreases |calls|
  {
    if calls != [] {
      hide Balance, AfterCall, ValidTable, Settled, SpentByCall;
      var call, rest := calls[0], calls[1..];
      assert call in calls;
      RemembersOne(l, t, calls, key);
      TimelyEnds(rest, call.End(), to);
      OneCallBalances(l, t, call, key, from);
      QuietRunsMoveNoBalance(l, AfterCall(l, t, call), rest, key, call.End(), to);
    }
  }

  lemma WhenABucketHolds(l: Limits, b: Bucket, cost: real, now: real, at: real)
    requires l.Valid() && b.tokens <= l.capacity && b.updatedAt <= now <= at && Refill(l, b, now).tokens < cost
    ensures Refill(l, b, at).tokens >= cost <==>
      cost <= l.capacity && at >= now + (cost - Refill(l, b, now).tokens) / l.refill
  {
    Gains(l, b.updatedAt, now, at);
    var missing := cost - Refill(l, b, now).tokens;
    var wait := missing / l.refill;
    assert wait * l.refill == missing;
    assert Gain(l, now, at) - missing == (at - now - wait) * l.refill;
    SignOfAProduct(at - now - wait, l.refill);
  }

  /** A refusal's wait is exact: with nothing of the key's spent in between, asking again is granted from
      that moment on and refused before it, as long as the budget can ever hold the cost, and never otherwise. */
  lemma WaitsAreExact(l: Limits, t: Table, calls: seq<Call>, key: Key, cost: real, now: real, at: real)
    requires Settled(l, t, now) && Timely(calls, now, at) && Costs(calls)
    requires Remembers(l, t, calls, key) && Quiet(l, t, calls, key)
    requires WaitAt(l, t, key, cost, now).After?
    ensures WaitAt(l, AfterAll(l, t, calls), key, cost, at) == Granted
       <==> cost <= l.capacity && at >= now + WaitAt(l, t, key, cost, now).seconds
  {
    TimelyEnds(calls, now, at);
    QuietRunsMoveNoBalance(l, t, calls, key, now, at);
    if key in t.buckets {
      WhenABucketHolds(l, t.buckets[key], cost, now, at);
    } else {
      assert (cost - l.capacity) / l.refill > 0.0;
    }
  }

  /** The seconds an answer asks to wait, none where it grants. */
  function Seconds(answer: Answer): real {
    if answer.After? then answer.seconds else 0.0
  }

  /** Asked again, with nothing of the key's spent in between, a budget grants if and only if it can ever hold the
      balance and the seconds it named have passed, a grant standing from the moment it is given. */
  lemma AnswersAreExact(l: Limits, t: Table, calls: seq<Call>, key: Key, balance: real, now: real, at: real)
    requires Settled(l, t, now) && Timely(calls, now, at) && Costs(calls)
    requires Remembers(l, t, calls, key) && Quiet(l, t, calls, key)
    ensures WaitAt(l, AfterAll(l, t, calls), key, balance, at) == Granted
       <==> balance <= l.capacity && at >= now + Seconds(WaitAt(l, t, key, balance, now))
  {
    TimelyEnds(calls, now, at);
    if WaitAt(l, t, key, balance, now) == Granted {
      QuietRunsMoveNoBalance(l, t, calls, key, now, at);
      BalanceMoves(l, t, key, now, at);
    } else {
      WaitsAreExact(l, t, calls, key, balance, now, at);
    }
  }

  function Ceiling(x: real): (n: int)
    ensures x <= n as real < x + 1.0
  {
    -((-x).Floor)
  }

  /** The whole seconds sent as `Retry-After` are never too few, and never a whole second too many. */
  lemma RetryAfterSuffices(l: Limits, t: Table, key: Key, cost: real, now: real)
    requires Settled(l, t, now) && WaitAt(l, t, key, cost, now).After? && cost <= l.capacity
    ensures WaitAt(l, t, key, cost, now + Ceiling(WaitAt(l, t, key, cost, now).seconds) as real) == Granted
    ensures Ceiling(WaitAt(l, t, key, cost, now).seconds) as real < WaitAt(l, t, key, cost, now).seconds + 1.0
  {
    var wait := WaitAt(l, t, key, cost, now).seconds;
    WaitIsPositive(l, t, key, cost, now);
    WaitsAreExact(l, t, [], key, cost, now, now + Ceiling(wait) as real);
  }

  lemma WaitIsPositive(l: Limits, t: Table, key: Key, cost: real, now: real)
    requires l.refill > 0.0 && WaitAt(l, t, key, cost, now).After?
    ensures WaitAt(l, t, key, cost, now).seconds > 0.0
  {
    var missing := cost - Balance(l, t, key, now);
    assert missing > 0.0 && (missing / l.refill) * l.refill == missing;
  }
}
