/** The budget as the object `TokenBudget` keeps it (src/sampleserver/visitors.py), in an ordered table
    changed in place. The clock a call reads is handed to it. */
module TokenBudgets {
  import opened Budgets
  import opened BudgetLaws

  const MAXIMUM_TRACKED_VISITORS: nat := 65536

  class TokenBudget {
    const limits: Limits
    var order: seq<Key>
    var buckets: map<Key, Bucket>

    ghost predicate Valid()
      reads this
    {
      limits.Valid() && OneEach(Contents()) && WithinBound(limits.bound, Contents())
    }

    ghost function Contents(): Table
      reads this
    {
      Table(order, buckets)
    }

    constructor (capacity: real, refill: real)
      requires capacity > 0.0 && refill > 0.0
      ensures Valid() && Contents() == EMPTY
      ensures limits == Limits(capacity, refill, AtMost(MAXIMUM_TRACKED_VISITORS))
    {
      limits := Limits(capacity, refill, AtMost(MAXIMUM_TRACKED_VISITORS));
      order, buckets := [], map[];
    }

    /** The bucket as it stands now, its key moved to the end of the table and the idlest keys let go. */
    method Refilled(key: Key, now: real)
      requires Valid()
      modifies this
      ensures Valid() && key in buckets && buckets[key] == BucketOf(limits, old(Contents()), key, now)
      ensures Contents() == Touched(limits, old(Contents()), key, now)
    {
      var bucket := if key in buckets then buckets[key] else Bucket(limits.capacity, now);
      order, buckets := Without(order, key), buckets - {key};
      bucket := Bucket(Min(limits.capacity, bucket.tokens + Gain(limits, bucket.updatedAt, now)), now);
      order, buckets := order + [key], buckets[key := bucket];
      ghost var used := Contents();
      assert used == Used(limits, old(Contents()), key, now) by {
        assert used.buckets == old(buckets)[key := BucketOf(limits, old(Contents()), key, now)];
      }
      while limits.bound.AtMost? && |order| > limits.bound.keys
        invariant Trimmed(limits.bound, Contents()) == Trimmed(limits.bound, used)
        decreases |order|
      {
        order, buckets := order[1..], buckets - {order[0]};
      }
      TouchedIsWhole(limits, old(Contents()), key, now);
    }

    method WaitFor(key: Key, balance: real, now: real) returns (wait: Answer)
      requires Valid()
      modifies this
      ensures Valid() && Contents() == AfterCall(limits, old(Contents()), Call.WaitFor(key, balance, now))
      ensures wait == WaitAt(limits, old(Contents()), key, balance, now)
    {
      Refilled(key, now);
      var tokens := buckets[key].tokens;
      wait := if tokens >= balance then Granted else After((balance - tokens) / limits.refill);
    }

    method Charge(key: Key, cost: real, now: real)
      requires Valid()
      modifies this
      ensures Valid() && Contents() == AfterCall(limits, old(Contents()), Call.Charge(key, cost, now))
    {
      Refilled(key, now);
      buckets := buckets[key := Bucket(buckets[key].tokens - cost, buckets[key].updatedAt)];
    }

    /** The clock is read once for the answer and again for the charge. */
    method Take(key: Key, cost: real, now: real, later: real) returns (wait: Answer)
      requires Valid()
      modifies this
      ensures Valid() && Contents() == AfterCall(limits, old(Contents()), Call.Take(key, cost, now, later))
      ensures wait == AnswerTo(limits, old(Contents()), Call.Take(key, cost, now, later))
    {
      wait := WaitFor(key, cost, now);
      if wait == Granted {
        Charge(key, cost, later);
      }
    }
  }

  lemma TouchedIsWhole(l: Limits, t: Table, key: Key, now: real)
    requires l.Valid() && OneEach(t) && WithinBound(l.bound, t)
    ensures OneEach(Touched(l, t, key, now)) && WithinBound(l.bound, Touched(l, t, key, now))
    ensures key in Touched(l, t, key, now).buckets && Touched(l, t, key, now).buckets[key] == BucketOf(l, t, key, now)
  {
    TouchedBuckets(l, t, key, now);
    WithoutKeepsTheRest(t.order, key);
    if l.bound.AtMost? && |Used(l, t, key, now).order| > l.bound.keys {
      Overflowing(l, t, key, now);
      assert forall k :: k in t.order <==> k == t.order[0] || k in t.order[1..];
    } else {
      Fitting(l, t, key, now);
    }
  }
}

/** The gate in front of the renderer (`MorphGate`, src/sampleserver/visitors.py): places in flight and two budgets. */
module MorphGates {
  import opened Options
  import opened RealArithmetic
  import opened Budgets
  import opened BudgetLaws
  import opened TokenBudgets

  const UNKNOWN_VISITOR: Key := "unknown"

  const SECONDS_PER_MINUTE: nat := 60

  /** The morph limits a site's policy sets, in renders a minute. */
  datatype MorphLimits = MorphLimits(perMinute: nat, perMinuteOverall: nat)

  datatype Admission = Admitted | Refused(retryAfter: int)

  function Needed(named: bool): real {
    if named then 0.0 else 1.0
  }

  // What an admission asks of one budget, and spends of it once both budgets grant it.
  function AdmissionCalls(key: Key, named: bool, granted: bool, at: real, later: real): seq<Call> {
    [WaitFor(key, Needed(named), at)] + if granted && !named then [Charge(key, 1.0, later)] else []
  }

  function BothGrant(lv: Limits, le: Limits, visitors: Table, everyone: Table, visitor: Key, named: bool, at: real,
      next: real): bool
    requires lv.refill > 0.0 && le.refill > 0.0
  {
    WaitAt(lv, visitors, visitor, Needed(named), at) == Granted
      && WaitAt(le, everyone, UNKNOWN_VISITOR, Needed(named), next) == Granted
  }

  /** Both budgets grant a request that names a render exactly while neither is in debt, and a new render exactly while
      each holds one. */
  lemma GrantsArePlain(lv: Limits, le: Limits, visitors: Table, everyone: Table, visitor: Key, named: bool, at: real,
      next: real)
    requires lv.refill > 0.0 && le.refill > 0.0
    ensures named ==>
      (BothGrant(lv, le, visitors, everyone, visitor, named, at, next) <==>
         Balance(lv, visitors, visitor, at) >= 0.0 && Balance(le, everyone, UNKNOWN_VISITOR, next) >= 0.0)
    ensures !named ==>
      (BothGrant(lv, le, visitors, everyone, visitor, named, at, next) <==>
         Balance(lv, visitors, visitor, at) >= 1.0 && Balance(le, everyone, UNKNOWN_VISITOR, next) >= 1.0)
  {
  }

  /** An admission spends one of its key's budget for a new render that both budgets grant, and otherwise nothing; and
      nothing of any other key that stays held. */
  lemma AdmissionsSpend(l: Limits, t: Table, key: Key, named: bool, granted: bool, from: real, at: real, later: real,
      other: Key)
    requires Settled(l, t, from) && from <= at <= later
    ensures var after := AfterAll(l, t, AdmissionCalls(key, named, granted, at, later));
      && Balance(l, after, key, later) == Balance(l, t, key, later) - (if granted && !named then 1.0 else 0.0)
      && (other != key && other in after.buckets ==> Balance(l, after, other, later) == Balance(l, t, other, later))
  {
    AdmissionSteps(l, t, key, named, granted, at, later);
    SettledLater(l, t, from, at);
    TouchedBuckets(l, t, key, at);
    TouchKeepsBalances(l, t, key, key, at);
    var asked := Touched(l, t, key, at);
    if other in asked.buckets && other != key {
      TouchKeepsBalances(l, t, key, other, at);
    }
    SettledLater(l, asked, at, later);
    TouchedBuckets(l, asked, key, later);
    ChargedTable(l, asked, key, 1.0, later);
    ChargeKeepsBalances(l, asked, key, 1.0, key, later);
    hide Touched, Charged, Balance, Settled, AfterAll, AdmissionCalls;
    if other in Charged(l, asked, key, 1.0, later).buckets && other != key {
      ChargeKeepsBalances(l, asked, key, 1.0, other, later);
    }
  }

  /** A minute's renders at once, and the same number again over each minute. */
  function EachMinute(renders: nat): (limits: Limits)
    ensures limits.capacity == renders as real == limits.refill * 60.0 && limits.bound == AtMost(65536)
  {
    Limits(renders as real, renders as real / SECONDS_PER_MINUTE as real, AtMost(MAXIMUM_TRACKED_VISITORS))
  }

  class MorphGate {
    const concurrent: nat
    var inFlight: nat
    // Both budgets, or neither where no limits are given.
    const visitors: TokenBudget?
    const everyone: TokenBudget?

    ghost predicate Valid()
      reads this, visitors, everyone
    {
      && inFlight <= concurrent
      && ((visitors == null) <==> (everyone == null))
      && (visitors != null ==> visitors != everyone && visitors.Valid() && everyone.Valid())
    }

    /** With limits, each budget holds a minute's renders and refills at their rate; without, there is none to spend. */
    constructor (concurrent: nat, limits: Option<MorphLimits>)
      requires limits.Some? ==> limits.value.perMinute > 0 && limits.value.perMinuteOverall > 0
      ensures Valid() && inFlight == 0 && this.concurrent == concurrent
      ensures limits.None? ==> visitors == null && everyone == null
      ensures limits.Some? ==>
        && visitors != null && everyone != null && fresh(visitors) && fresh(everyone)
        && visitors.limits == EachMinute(limits.value.perMinute) && visitors.Contents() == EMPTY
        && everyone.limits == EachMinute(limits.value.perMinuteOverall) && everyone.Contents() == EMPTY
    {
      this.concurrent, this.inFlight := concurrent, 0;
      if limits.None? {
        this.visitors, this.everyone := null, null;
      } else {
        var own, shared := limits.value.perMinute as real, limits.value.perMinuteOverall as real;
        var visitors := new TokenBudget(own, own / SECONDS_PER_MINUTE as real);
        var everyone := new TokenBudget(shared, shared / SECONDS_PER_MINUTE as real);
        this.visitors, this.everyone := visitors, everyone;
      }
    }

    /** Takes one of the places, unless none is free. */
    method Enter() returns (entered: bool)
      requires Valid()
      modifies `inFlight
      ensures Valid() && entered == (old(inFlight) < concurrent)
      ensures inFlight == if entered then old(inFlight) + 1 else old(inFlight)
    {
      entered := inFlight < concurrent;
      if entered {
        inFlight := inFlight + 1;
      }
    }

    method Leave()
      requires Valid() && inFlight > 0
      modifies `inFlight
      ensures Valid() && inFlight == old(inFlight) - 1
    {
      inFlight := inFlight - 1;
    }

    /** Lets a morph ask the renderer while both budgets hold what it needs, spending one of each for a new
        render; a refusal names the longer wait and spends nothing. The clock is read four times. */
    method Admit(visitor: Key, named: bool, c1: real, c2: real, c3: real, c4: real) returns (admission: Admission)
      requires Valid()
      modifies visitors, everyone
      ensures Valid()
      ensures visitors == null ==> admission == Admitted
      ensures visitors != null && named ==>
        (admission == Admitted <==>
           && Balance(visitors.limits, old(visitors.Contents()), visitor, c1) >= 0.0
           && Balance(everyone.limits, old(everyone.Contents()), UNKNOWN_VISITOR, c2) >= 0.0)
      ensures visitors != null && !named ==>
        (admission == Admitted <==>
           && Balance(visitors.limits, old(visitors.Contents()), visitor, c1) >= 1.0
           && Balance(everyone.limits, old(everyone.Contents()), UNKNOWN_VISITOR, c2) >= 1.0)
      ensures visitors != null ==>
        var granted := BothGrant(visitors.limits, everyone.limits, old(visitors.Contents()), old(everyone.Contents()),
          visitor, named, c1, c2);
        && (admission == Admitted <==> granted)
        && visitors.Contents() == AfterAll(visitors.limits, old(visitors.Contents()),
          AdmissionCalls(visitor, named, granted, c1, c3))
        && everyone.Contents() == AfterAll(everyone.limits, old(everyone.Contents()),
          AdmissionCalls(UNKNOWN_VISITOR, named, granted, c2, c4))
      ensures admission.Refused? && visitors != null ==>
        admission.retryAfter == RetryAfter(
          visitors.limits, everyone.limits, old(visitors.Contents()), old(everyone.Contents()), visitor, named, c1, c2)
    {
      if visitors == null {
        return Admitted;
      }
      GrantsArePlain(visitors.limits, everyone.limits, visitors.Contents(), everyone.Contents(), visitor, named, c1,
        c2);
      var own := visitors.WaitFor(visitor, Needed(named), c1);
      var shared := everyone.WaitFor(UNKNOWN_VISITOR, Needed(named), c2);
      hide AfterCall, WaitAt, Balance, Needed;
      ghost var lv, le := visitors.limits, everyone.limits;
      AdmissionSteps(lv, old(visitors.Contents()), visitor, named, own == Granted && shared == Granted, c1, c3);
      AdmissionSteps(le, old(everyone.Contents()), UNKNOWN_VISITOR, named, own == Granted && shared == Granted, c2, c4);
      if own != Granted || shared != Granted {
        return Refused(Ceiling(Larger(Seconds(own), Seconds(shared))));
      }
      if !named {
        ChargeBoth(visitor, c3, c4);
      }
      admission := Admitted;
    }

    method ChargeBoth(visitor: Key, c1: real, c2: real)
      requires Valid()
      modifies visitors, everyone
      ensures Valid()
      ensures visitors != null ==>
        && visitors.Contents() == AfterCall(visitors.limits, old(visitors.Contents()), Charge(visitor, 1.0, c1))
        && everyone.Contents() == AfterCall(everyone.limits, old(everyone.Contents()), Charge(UNKNOWN_VISITOR, 1.0, c2))
    {
      if visitors == null {
        return;
      }
      visitors.Charge(visitor, 1.0, c1);
      everyone.Charge(UNKNOWN_VISITOR, 1.0, c2);
    }
  }

  /** A morph refused and asked for again, with nothing of either budget spent in between, is admitted if and only if
      both budgets can ever hold what it needs and each one's wait has passed. The seconds the refusal named are
      enough. */
  lemma AskingAgain(
    lv: Limits, le: Limits, visitors: Table, everyone: Table, visitor: Key, named: bool,
    own: seq<Call>, shared: seq<Call>, c1: real, c2: real, at: real, next: real)
    requires Settled(lv, visitors, c1) && Timely(own, c1, at) && Costs(own)
    requires Settled(le, everyone, c2) && Timely(shared, c2, next) && Costs(shared)
    requires Remembers(lv, visitors, own, visitor) && Quiet(lv, visitors, own, visitor)
    requires Remembers(le, everyone, shared, UNKNOWN_VISITOR) && Quiet(le, everyone, shared, UNKNOWN_VISITOR)
    ensures
      BothGrant(lv, le, AfterAll(lv, visitors, own), AfterAll(le, everyone, shared), visitor, named, at, next) <==>
      && Needed(named) <= lv.capacity && Needed(named) <= le.capacity
      && at >= c1 + Seconds(WaitAt(lv, visitors, visitor, Needed(named), c1))
      && next >= c2 + Seconds(WaitAt(le, everyone, UNKNOWN_VISITOR, Needed(named), c2))
    ensures var retryAfter := RetryAfter(lv, le, visitors, everyone, visitor, named, c1, c2);
      1.0 <= lv.capacity && 1.0 <= le.capacity && at >= c1 + retryAfter as real && next >= c2 + retryAfter as real ==>
        BothGrant(lv, le, AfterAll(lv, visitors, own), AfterAll(le, everyone, shared), visitor, named, at, next)
  {
    AnswersAreExact(lv, visitors, own, visitor, Needed(named), c1, at);
    AnswersAreExact(le, everyone, shared, UNKNOWN_VISITOR, Needed(named), c2, next);
    hide WaitAt, AfterAll, Settled, Remembers, Quiet, Timely, Costs, Ceiling;
  }

  /** The whole seconds a refusal names: the longer of the two waits, rounded up. */
  function RetryAfter(
    lv: Limits, le: Limits, visitors: Table, everyone: Table, visitor: Key, named: bool, c1: real, c2: real): int
    requires lv.refill > 0.0 && le.refill > 0.0
  {
    Ceiling(Larger(
      Seconds(WaitAt(lv, visitors, visitor, Needed(named), c1)),
      Seconds(WaitAt(le, everyone, UNKNOWN_VISITOR, Needed(named), c2))))
  }

  lemma AdmissionSteps(l: Limits, t: Table, key: Key, named: bool, granted: bool, at: real, later: real)
    requires l.refill > 0.0
    ensures var asked := AfterCall(l, t, WaitFor(key, Needed(named), at));
      AfterAll(l, t, AdmissionCalls(key, named, granted, at, later))
      == if granted && !named then AfterCall(l, asked, Charge(key, 1.0, later)) else asked
  {
    hide AfterCall;
    var calls := AdmissionCalls(key, named, granted, at, later);
    var asked := AfterCall(l, t, calls[0]);
    if granted && !named {
      assert calls[1..] == [Charge(key, 1.0, later)] && calls[1..][1..] == [];
      assert AfterAll(l, asked, calls[1..]) == AfterAll(l, AfterCall(l, asked, calls[1]), []);
    } else {
      assert calls[1..] == [];
    }
  }
}

/** The morph route (src/sampleserver/routers/morph.py) over its gate, any number of requests interleaved.
    The event loop runs what stands between two awaits as one step, so taking a place and being admitted are
    one step, and so are giving the place back and paying for new audio. */
module MorphRoute {
  import opened Sorting
  import opened Budgets
  import opened BudgetLaws
  import opened Forgetting
  import opened MorphGates

  datatype Request = Request(visitor: Key, named: bool)

  datatype State = State(flying: map<nat, Request>, inFlight: nat, visitors: Table, everyone: Table)

  datatype Event =
    | Arrive(id: nat, request: Request, c1: real, c2: real, c3: real, c4: real)
    | Finish(id: nat, newAudio: bool, c1: real, c2: real)
  {
    function Begin(): real { c1 }
    function End(): real { if Arrive? then c4 else c2 }
    ghost predicate InOrder() { c1 <= c2 && (Arrive? ==> c2 <= c3 <= c4) }
  }

  datatype Gate = Gate(concurrent: nat, own: Limits, shared: Limits) {
    ghost predicate Valid() {
      own.Valid() && shared.Valid()
    }
  }

  ghost predicate Enabled(s: State, e: Event) {
    if e.Arrive? then e.id !in s.flying else e.id in s.flying
  }

  predicate Passes(g: Gate, s: State, e: Event)
    requires g.own.refill > 0.0 && g.shared.refill > 0.0 && e.Arrive?
  {
    BothGrant(g.own, g.shared, s.visitors, s.everyone, e.request.visitor, e.request.named, e.c1, e.c2)
  }

  /** The calls one event makes on the visitors' budget. */
  function VisitorCalls(g: Gate, s: State, e: Event): seq<Call>
    requires g.own.refill > 0.0 && g.shared.refill > 0.0
  {
    match e
    case Arrive(_, request, c1, _, c3, _) =>
      if s.inFlight >= g.concurrent then [] else AdmissionCalls(request.visitor, request.named, Passes(g, s, e), c1, c3)
    case Finish(id, newAudio, c1, _) =>
      if id in s.flying && newAudio && s.flying[id].named then [Charge(s.flying[id].visitor, 1.0, c1)] else []
  }

  /** The calls one event makes on everyone's budget. */
  function SharedCalls(g: Gate, s: State, e: Event): seq<Call>
    requires g.own.refill > 0.0 && g.shared.refill > 0.0
  {
    match e
    case Arrive(_, request, _, c2, _, c4) =>
      if s.inFlight >= g.concurrent then [] else AdmissionCalls(UNKNOWN_VISITOR, request.named, Passes(g, s, e), c2, c4)
    case Finish(id, newAudio, _, c2) =>
      if id in s.flying && newAudio && s.flying[id].named then [Charge(UNKNOWN_VISITOR, 1.0, c2)] else []
  }

  function Step(g: Gate, s: State, e: Event): State
    requires g.own.refill > 0.0 && g.shared.refill > 0.0
  {
    var visitors := AfterAll(g.own, s.visitors, VisitorCalls(g, s, e));
    var everyone := AfterAll(g.shared, s.everyone, SharedCalls(g, s, e));
    match e
    case Arrive(id, request, _, _, _, _) =>
      if s.inFlight < g.concurrent && Passes(g, s, e)
      then State(s.flying[id := request], s.inFlight + 1, visitors, everyone)
      else s.(visitors := visitors, everyone := everyone)
    case Finish(id, _, _, _) =>
      State(s.flying - {id}, if s.inFlight > 0 then s.inFlight - 1 else 0, visitors, everyone)
  }

  function StepAll(g: Gate, s: State, events: seq<Event>): State
    requires g.own.refill > 0.0 && g.shared.refill > 0.0
    decreases |events|
  {
    if events == [] then s else StepAll(g, Step(g, s, events[0]), events[1..])
  }

  /** Events a route can meet, one after the other on a clock that never runs back. */
  ghost predicate Run(g: Gate, s: State, events: seq<Event>, from: real, to: real)
    requires g.own.refill > 0.0 && g.shared.refill > 0.0
    decreases |events|
  {
    if events == [] then from <= to
    else
      && Enabled(s, events[0]) && events[0].InOrder() && from <= events[0].Begin()
      && Run(g, Step(g, s, events[0]), events[1..], events[0].End(), to)
  }

  /** The requests in flight that may still be charged to a visitor, and to everyone. */
  function OwedBy(flying: map<nat, Request>, visitor: Key): set<nat> {
    set id | id in flying && flying[id].named && flying[id].visitor == visitor
  }

  function OwedByAll(flying: map<nat, Request>): set<nat> {
    set id | id in flying && flying[id].named
  }

  // The balance covers what is still owed, down to the debt of every place.
  ghost predicate Covers(l: Limits, t: Table, key: Key, owed: nat, places: nat, now: real) {
    Balance(l, t, key, now) >= owed as real - places as real
  }

  /** What every step keeps: places within their number, and both budgets covering the renders still owed. */
  ghost predicate Invariant(g: Gate, s: State, now: real) {
    && g.Valid() && s.inFlight == |s.flying| <= g.concurrent
    && Settled(g.own, s.visitors, now) && Settled(g.shared, s.everyone, now)
    && (forall k :: k in s.everyone.buckets ==> k == UNKNOWN_VISITOR)
    && (forall v :: Covers(g.own, s.visitors, v, |OwedBy(s.flying, v)|, g.concurrent, now))
    && Covers(g.shared, s.everyone, UNKNOWN_VISITOR, |OwedByAll(s.flying)|, g.concurrent, now)
  }

  // ------------------------------------------------------------------ one budget over one event

  lemma OneCallFloor(l: Limits, t: Table, call: Call, key: Key, from: real)
    requires Settled(l, t, from) && from <= call.at <= call.End() && (!call.WaitFor? ==> call.cost >= 0.0)
      && !call.Take?
    ensures Settled(l, AfterCall(l, t, call), call.End())
    ensures Balance(l, AfterCall(l, t, call), key, call.End()) >= Balance(l, t, key, from) - SpentByCall(l, t, call,
      key)
  {
    var at := call.at;
    OneCallSettles(l, t, call, from);
    SettledLater(l, t, from, at);
    BalanceMoves(l, t, key, from, at);
    BalanceMoves(l, t, key, at, at);
    if key in t.buckets && key !in AfterCall(l, t, call).buckets {
      assert Balance(l, AfterCall(l, t, call), key, at) == l.capacity;
    } else {
      HeldWithin(l, t, call, key);
      hide Touched, Charged, Balance, ValidTable;
      if call.Charge? {
        ChargeKeepsBalances(l, t, call.key, call.cost, key, at);
      } else {
        TouchKeepsBalances(l, t, call.key, key, at);
      }
    }
  }

  lemma {:induction false} CallsFloor(l: Limits, t: Table, calls: seq<Call>, key: Key, from: real, to: real)
    requires Settled(l, t, from) && Timely(calls, from, to) && Costs(calls) && forall c :: c in calls ==> !c.Take?
    ensures Settled(l, AfterAll(l, t, calls), to)
    ensures Balance(l, AfterAll(l, t, calls), key, to) >= Balance(l, t, key, from) - Spent(l, t, calls, key)
    decreases |calls|
  {
    if calls == [] {
      SettledLater(l, t, from, to);
      BalanceMoves(l, t, key, from, to);
    } else {
      hide Balance, AfterCall, SpentByCall, Settled;
      assert calls[0] in calls;
      OneCallFloor(l, t, calls[0], key, from);
      CallsFloor(l, AfterCall(l, t, calls[0]), calls[1..], key, calls[0].End(), to);
    }
  }

  lemma AdmissionSpends(l: Limits, t: Table, asked: Key, named: bool, granted: bool, at: real, later: real, key: Key)
    requires l.refill > 0.0
    ensures Spent(l, t, AdmissionCalls(asked, named, granted, at, later), key) == if granted && !named && asked == key
      then 1.0 else 0.0
  {
    hide AfterCall;
    var calls := AdmissionCalls(asked, named, granted, at, later);
    var after := AfterCall(l, t, calls[0]);
    if granted && !named {
      var rest := [Charge(asked, 1.0, later)];
      assert calls[1..] == rest && rest[1..] == [];
      assert Spent(l, after, rest, key) == SpentByCall(l, after, rest[0], key)
        + Spent(l, AfterCall(l, after, rest[0]), [], key);
    } else {
      assert calls[1..] == [];
    }
  }

  lemma AdmissionIsTimely(key: Key, named: bool, granted: bool, at: real, later: real, from: real, to: real)
    requires from <= at <= later <= to
    ensures Timely(AdmissionCalls(key, named, granted, at, later), from, to)
    ensures Costs(AdmissionCalls(key, named, granted, at, later))
  {
    var calls := AdmissionCalls(key, named, granted, at, later);
    if granted && !named {
      var rest := [Charge(key, 1.0, later)];
      assert calls[1..] == rest && rest[1..] == [];
      assert Timely(rest, at, to);
    } else {
      assert calls[1..] == [];
    }
  }

  /** An admission on one budget: what it grants keeps the balance from debt, and what it refuses it leaves covered. */
  lemma AdmissionCovers(
    l: Limits, t: Table, asked: Key, named: bool, granted: bool, at: real, later: real,
    key: Key, owed: nat, owedAfter: nat, places: nat, from: real, to: real)
    requires Settled(l, t, from) && from <= at <= later <= to && Covers(l, t, key, owed, places, from)
    requires granted ==> WaitAt(l, t, asked, Needed(named), at) == Granted
    requires owedAfter <= places
    requires !granted || asked != key ==> owedAfter <= owed
    ensures Settled(l, AfterAll(l, t, AdmissionCalls(asked, named, granted, at, later)), to)
    ensures Covers(l, AfterAll(l, t, AdmissionCalls(asked, named, granted, at, later)), key, owedAfter, places, to)
  {
    AdmissionSpends(l, t, asked, named, granted, at, later, key);
    AdmissionIsTimely(asked, named, granted, at, later, from, to);
    AdmissionIsTimely(asked, named, granted, at, later, at, to);
    SettledLater(l, t, from, at);
    hide Balance, Spent, AfterAll, Timely, Settled;
    var calls := AdmissionCalls(asked, named, granted, at, later);
    CallsFloor(l, t, calls, key, from, to);
    CallsFloor(l, t, calls, key, at, to);
  }

  lemma PaymentCovers(
    l: Limits, t: Table, charged: Key, at: real,
    key: Key, owed: nat, owedAfter: nat, places: nat, from: real, to: real)
    requires Settled(l, t, from) && from <= at <= to && Covers(l, t, key, owed, places, from)
    requires owedAfter <= if charged == key then owed - 1 else owed
    ensures Settled(l, AfterAll(l, t, [Charge(charged, 1.0, at)]), to)
    ensures Covers(l, AfterAll(l, t, [Charge(charged, 1.0, at)]), key, owedAfter, places, to)
  {
    var calls := [Charge(charged, 1.0, at)];
    assert calls[1..] == [];
    assert Timely(calls, from, to);
    assert Spent(l, t, calls, key) == if charged == key then 1.0 else 0.0;
    hide Balance, Spent, AfterAll, Timely, Settled;
    CallsFloor(l, t, calls, key, from, to);
  }

  lemma WaitingCovers(l: Limits, t: Table, key: Key, owed: nat, owedAfter: nat, places: nat, from: real, to: real)
    requires Settled(l, t, from) && from <= to && Covers(l, t, key, owed, places, from) && owedAfter <= owed
    ensures Settled(l, AfterAll(l, t, []), to) && Covers(l, AfterAll(l, t, []), key, owedAfter, places, to)
  {
    SettledLater(l, t, from, to);
    BalanceMoves(l, t, key, from, to);
  }

  // ------------------------------------------------------------------ one event

  lemma OwedStaysWithinThePlaces(flying: map<nat, Request>, visitor: Key)
    ensures |OwedBy(flying, visitor)| <= |flying| && |OwedByAll(flying)| <= |flying|
  {
    SubsetIsNoLarger(OwedBy(flying, visitor), flying.Keys);
    SubsetIsNoLarger(OwedByAll(flying), flying.Keys);
  }

  lemma OwedAfterArriving(flying: map<nat, Request>, id: nat, request: Request, visitor: Key)
    requires id !in flying
    ensures |flying[id := request]| == |flying| + 1
    ensures request.visitor != visitor ==> OwedBy(flying[id := request], visitor) == OwedBy(flying, visitor)
  {
    assert flying[id := request].Keys == flying.Keys + {id};
  }

  lemma OwedAfterFinishing(flying: map<nat, Request>, id: nat, visitor: Key)
    requires id in flying
    ensures |flying - {id}| == |flying| - 1
    ensures |OwedBy(flying - {id}, visitor)|
         == |OwedBy(flying, visitor)| - if flying[id].named && flying[id].visitor == visitor then 1 else 0
    ensures |OwedByAll(flying - {id})| == |OwedByAll(flying)| - if flying[id].named then 1 else 0
  {
    assert (flying - {id}).Keys == flying.Keys - {id};
    assert OwedBy(flying - {id}, visitor) == OwedBy(flying, visitor) - {id};
    assert OwedByAll(flying - {id}) == OwedByAll(flying) - {id};
  }

  lemma VisitorStaysCovered(g: Gate, s: State, e: Event, from: real, v: Key)
    requires Invariant(g, s, from) && Enabled(s, e) && e.InOrder() && from <= e.Begin()
    ensures Settled(g.own, Step(g, s, e).visitors, e.End())
    ensures Covers(g.own, Step(g, s, e).visitors, v, |OwedBy(Step(g, s, e).flying, v)|, g.concurrent, e.End())
  {
    var owed, after := |OwedBy(s.flying, v)|, |OwedBy(Step(g, s, e).flying, v)|;
    assert Covers(g.own, s.visitors, v, owed, g.concurrent, from);
    match e
    case Arrive(id, request, c1, c2, c3, c4) =>
      OwedStaysWithinThePlaces(Step(g, s, e).flying, v);
      OwedAfterArriving(s.flying, id, request, v);
      hide Covers, Settled, AfterAll, WaitAt;
      if s.inFlight < g.concurrent {
        AdmissionCovers(g.own, s.visitors, request.visitor, request.named, Passes(g, s, e), c1, c3, v, owed, after,
          g.concurrent, from, c4);
      } else {
        WaitingCovers(g.own, s.visitors, v, owed, after, g.concurrent, from, c4);
      }
    case Finish(id, newAudio, c1, c2) =>
      OwedAfterFinishing(s.flying, id, v);
      hide Covers, Settled, AfterAll;
      if newAudio && s.flying[id].named {
        PaymentCovers(g.own, s.visitors, s.flying[id].visitor, c1, v, owed, after, g.concurrent, from, c2);
      } else {
        WaitingCovers(g.own, s.visitors, v, owed, after, g.concurrent, from, c2);
      }
  }

  lemma EveryoneStaysCovered(g: Gate, s: State, e: Event, from: real)
    requires Invariant(g, s, from) && Enabled(s, e) && e.InOrder() && from <= e.Begin()
    ensures Settled(g.shared, Step(g, s, e).everyone, e.End())
    ensures Covers(g.shared, Step(g, s, e).everyone, UNKNOWN_VISITOR, |OwedByAll(Step(g, s, e).flying)|, g.concurrent,
      e.End())
  {
    var owed, after := |OwedByAll(s.flying)|, |OwedByAll(Step(g, s, e).flying)|;
    match e
    case Arrive(id, request, c1, c2, c3, c4) =>
      OwedStaysWithinThePlaces(Step(g, s, e).flying, UNKNOWN_VISITOR);
      OwedAfterArriving(s.flying, id, request, UNKNOWN_VISITOR);
      hide Covers, Settled, AfterAll, WaitAt;
      if s.inFlight < g.concurrent {
        AdmissionCovers(g.shared, s.everyone, UNKNOWN_VISITOR, request.named, Passes(g, s, e), c2, c4, UNKNOWN_VISITOR,
          owed, after, g.concurrent, from, c4);
      } else {
        WaitingCovers(g.shared, s.everyone, UNKNOWN_VISITOR, owed, after, g.concurrent, from, c4);
      }
    case Finish(id, newAudio, c1, c2) =>
      OwedAfterFinishing(s.flying, id, UNKNOWN_VISITOR);
      hide Covers, Settled, AfterAll;
      if newAudio && s.flying[id].named {
        PaymentCovers(g.shared, s.everyone, UNKNOWN_VISITOR, c2, UNKNOWN_VISITOR, owed, after, g.concurrent, from, c2);
      } else {
        WaitingCovers(g.shared, s.everyone, UNKNOWN_VISITOR, owed, after, g.concurrent, from, c2);
      }
  }

  lemma {:induction false} CallsHoldTheirKeyAlone(l: Limits, t: Table, calls: seq<Call>, key: Key, from: real, to: real)
    requires Settled(l, t, from) && Timely(calls, from, to) && Costs(calls)
    requires forall c :: c in calls ==> c.key == key && !c.Take?
    requires forall k :: k in t.buckets ==> k == key
    ensures Settled(l, AfterAll(l, t, calls), to)
    ensures forall k :: k in AfterAll(l, t, calls).buckets ==> k == key
    ensures Remembers(l, t, calls, key)
    decreases |calls|
  {
    if calls == [] {
      SettledLater(l, t, from, to);
    } else {
      var call := calls[0];
      assert call in calls;
      OneCallSettles(l, t, call, from);
      SettledLater(l, t, from, call.at);
      if call.Charge? {
        ChargedTable(l, t, key, call.cost, call.at);
      }
      TouchedBuckets(l, t, key, call.at);
      hide Touched, Charged, Settled;
      CallsHoldTheirKeyAlone(l, AfterCall(l, t, call), calls[1..], key, call.End(), to);
    }
  }

  lemma SharedCallsAreTimely(g: Gate, s: State, e: Event, from: real)
    requires g.Valid() && e.InOrder() && from <= e.Begin()
    ensures Timely(SharedCalls(g, s, e), from, e.End()) && Costs(SharedCalls(g, s, e))
    ensures forall c :: c in SharedCalls(g, s, e) ==> c.key == UNKNOWN_VISITOR && !c.Take?
  {
    if e.Arrive? {
      AdmissionIsTimely(UNKNOWN_VISITOR, e.request.named, Passes(g, s, e), e.c2, e.c4, from, e.End());
    } else {
      assert [Charge(UNKNOWN_VISITOR, 1.0, e.c2)][1..] == [];
      assert Timely([], e.c2, e.c2);
    }
  }

  lemma VisitorCallsAreTimely(g: Gate, s: State, e: Event, from: real)
    requires g.Valid() && e.InOrder() && from <= e.Begin()
    ensures Timely(VisitorCalls(g, s, e), from, e.End()) && Costs(VisitorCalls(g, s, e))
  {
    if e.Arrive? {
      AdmissionIsTimely(e.request.visitor, e.request.named, Passes(g, s, e), e.c1, e.c3, from, e.End());
    } else if e.id in s.flying {
      assert [Charge(s.flying[e.id].visitor, 1.0, e.c1)][1..] == [];
      assert Timely([], e.c1, e.c2);
    }
  }

  lemma StepKeepsTheInvariant(g: Gate, s: State, e: Event, from: real)
    requires Invariant(g, s, from) && Enabled(s, e) && e.InOrder() && from <= e.Begin()
    ensures Invariant(g, Step(g, s, e), e.End())
  {
    forall v
      ensures Covers(g.own, Step(g, s, e).visitors, v, |OwedBy(Step(g, s, e).flying, v)|, g.concurrent, e.End())
    {
      VisitorStaysCovered(g, s, e, from, v);
    }
    VisitorStaysCovered(g, s, e, from, UNKNOWN_VISITOR);
    EveryoneStaysCovered(g, s, e, from);
    SharedCallsAreTimely(g, s, e, from);
    CallsHoldTheirKeyAlone(g.shared, s.everyone, SharedCalls(g, s, e), UNKNOWN_VISITOR, from, e.End());
    PlacesStayCounted(g, s, e);
    hide Step, Covers, Settled, AfterAll, OwedBy, OwedByAll, VisitorCalls, SharedCalls;
  }

  lemma PlacesStayCounted(g: Gate, s: State, e: Event)
    requires g.Valid() && s.inFlight == |s.flying| <= g.concurrent && Enabled(s, e)
    ensures Step(g, s, e).inFlight == |Step(g, s, e).flying| <= g.concurrent
    ensures Step(g, s, e).everyone == AfterAll(g.shared, s.everyone, SharedCalls(g, s, e))
  {
    hide AfterAll, VisitorCalls, SharedCalls, BothGrant;
    if e.Arrive? {
      assert s.flying[e.id := e.request].Keys == s.flying.Keys + {e.id};
    } else {
      assert (s.flying - {e.id}).Keys == s.flying.Keys - {e.id};
    }
  }

  // ------------------------------------------------------------------ every interleaving

  /** In every interleaving, the places in use stay within their number and neither budget's debt exceeds
      the number of places. */
  lemma {:induction false} DebtStaysWithinThePlaces(g: Gate, s: State, events: seq<Event>, from: real, to: real)
    requires Invariant(g, s, from) && Run(g, s, events, from, to)
    ensures Invariant(g, StepAll(g, s, events), to)
    ensures StepAll(g, s, events).inFlight <= g.concurrent
    ensures forall v :: Balance(g.own, StepAll(g, s, events).visitors, v, to) >= -(g.concurrent as real)
    ensures Balance(g.shared, StepAll(g, s, events).everyone, UNKNOWN_VISITOR, to) >= -(g.concurrent as real)
    decreases |events|
  {
    if events == [] {
      InvariantLater(g, s, from, to);
      forall v
        ensures Balance(g.own, s.visitors, v, to) >= -(g.concurrent as real)
      {
        assert Covers(g.own, s.visitors, v, |OwedBy(s.flying, v)|, g.concurrent, to);
      }
    } else {
      hide Invariant, Step;
      StepKeepsTheInvariant(g, s, events[0], from);
      DebtStaysWithinThePlaces(g, Step(g, s, events[0]), events[1..], events[0].End(), to);
    }
  }

  lemma InvariantLater(g: Gate, s: State, now: real, later: real)
    requires Invariant(g, s, now) && now <= later
    ensures Invariant(g, s, later)
  {
    SettledLater(g.own, s.visitors, now, later);
    SettledLater(g.shared, s.everyone, now, later);
    forall v
      ensures Covers(g.own, s.visitors, v, |OwedBy(s.flying, v)|, g.concurrent, later)
    {
      assert Covers(g.own, s.visitors, v, |OwedBy(s.flying, v)|, g.concurrent, now);
      BalanceMoves(g.own, s.visitors, v, now, later);
    }
    BalanceMoves(g.shared, s.everyone, UNKNOWN_VISITOR, now, later);
  }

  /** The gate before any request. */
  const FIRST: State := State(map[], 0, EMPTY, EMPTY)

  lemma TheFirstState(g: Gate, now: real)
    requires g.Valid()
    ensures Invariant(g, FIRST, now)
  {
    forall v
      ensures Covers(g.own, EMPTY, v, |OwedBy(map[], v)|, g.concurrent, now)
    {
      assert OwedBy(map[], v) == {};
    }
    assert OwedByAll(map[]) == {};
  }

  /** What a run of events charges to everyone. */
  function PaidByAll(g: Gate, s: State, events: seq<Event>): real
    requires g.own.refill > 0.0 && g.shared.refill > 0.0
    decreases |events|
  {
    if events == [] then
      0.0
    else
      Spent(g.shared, s.everyone, SharedCalls(g, s, events[0]), UNKNOWN_VISITOR)
      + PaidByAll(g, Step(g, s, events[0]), events[1..])
  }

  /** What a run of events charges to one visitor. */
  function PaidBy(g: Gate, s: State, events: seq<Event>, visitor: Key): real
    requires g.own.refill > 0.0 && g.shared.refill > 0.0
    decreases |events|
  {
    if events == [] then
      0.0
    else
      Spent(g.own, s.visitors, VisitorCalls(g, s, events[0]), visitor)
      + PaidBy(g, Step(g, s, events[0]), events[1..], visitor)
  }

  lemma {:induction false} ChargesComeOutOfEveryonesBalance(g: Gate, s: State, events: seq<Event>, from: real, to: real)
    requires Invariant(g, s, from) && Run(g, s, events, from, to)
    ensures PaidByAll(g, s, events) + Balance(g.shared, StepAll(g, s, events).everyone, UNKNOWN_VISITOR, to)
         <= Balance(g.shared, s.everyone, UNKNOWN_VISITOR, from) + Gain(g.shared, from, to)
    decreases |events|
  {
    if events == [] {
      BalanceMoves(g.shared, s.everyone, UNKNOWN_VISITOR, from, to);
    } else {
      var e := events[0];
      var calls := SharedCalls(g, s, e);
      assert Settled(g.shared, s.everyone, from);
      StepKeepsTheInvariant(g, s, e, from);
      SharedCallsAreTimely(g, s, e, from);
      CallsHoldTheirKeyAlone(g.shared, s.everyone, calls, UNKNOWN_VISITOR, from, e.End());
      SpendingComesOutOfTheBalance(g.shared, s.everyone, calls, UNKNOWN_VISITOR, from, e.End());
      hide Balance, Gain, Spent, Invariant, AfterAll, SharedCalls, VisitorCalls, Settled;
      ChargesComeOutOfEveryonesBalance(g, Step(g, s, e), events[1..], e.End(), to);
      RunEnds(g, Step(g, s, e), events[1..], e.End(), to);
      Gains(g.shared, from, e.End(), to);
    }
  }

  lemma {:induction false} RunEnds(g: Gate, s: State, events: seq<Event>, from: real, to: real)
    requires g.own.refill > 0.0 && g.shared.refill > 0.0 && Run(g, s, events, from, to)
    ensures from <= to
    decreases |events|
  {
    if events != [] {
      hide Step;
      RunEnds(g, Step(g, s, events[0]), events[1..], events[0].End(), to);
    }
  }

  /** Over any window, all the renders charged are at most the capacity, what refills meanwhile, and the places. */
  lemma RendersStayWithinTheRate(g: Gate, s: State, events: seq<Event>, from: real, to: real)
    requires Invariant(g, s, from) && Run(g, s, events, from, to)
    ensures PaidByAll(g, s, events) <= g.shared.capacity + Gain(g.shared, from, to) + g.concurrent as real
  {
    BalanceMoves(g.shared, s.everyone, UNKNOWN_VISITOR, from, from);
    ChargesComeOutOfEveryonesBalance(g, s, events, from, to);
    DebtStaysWithinThePlaces(g, s, events, from, to);
  }

  /** The visitors' table does not let `visitor` go while it is held. */
  ghost predicate KeepsVisitor(g: Gate, s: State, events: seq<Event>, visitor: Key)
    requires g.own.refill > 0.0 && g.shared.refill > 0.0
    decreases |events|
  {
    events != [] ==>
      && Remembers(g.own, s.visitors, VisitorCalls(g, s, events[0]), visitor)
      && KeepsVisitor(g, Step(g, s, events[0]), events[1..], visitor)
  }

  lemma {:induction false} ChargesComeOutOfAVisitorsBalance(g: Gate, s: State, events: seq<Event>, visitor: Key,
      from: real, to: real)
    requires Invariant(g, s, from) && Run(g, s, events, from, to) && KeepsVisitor(g, s, events, visitor)
    ensures PaidBy(g, s, events, visitor) + Balance(g.own, StepAll(g, s, events).visitors, visitor, to)
         <= Balance(g.own, s.visitors, visitor, from) + Gain(g.own, from, to)
    decreases |events|
  {
    if events == [] {
      BalanceMoves(g.own, s.visitors, visitor, from, to);
    } else {
      var e := events[0];
      var calls := VisitorCalls(g, s, e);
      assert Settled(g.own, s.visitors, from);
      StepKeepsTheInvariant(g, s, e, from);
      VisitorCallsAreTimely(g, s, e, from);
      SpendingComesOutOfTheBalance(g.own, s.visitors, calls, visitor, from, e.End());
      hide Balance, Gain, Spent, Invariant, AfterAll, SharedCalls, VisitorCalls, Settled, Remembers;
      ChargesComeOutOfAVisitorsBalance(g, Step(g, s, e), events[1..], visitor, e.End(), to);
      RunEnds(g, Step(g, s, e), events[1..], e.End(), to);
      Gains(g.own, from, e.End(), to);
    }
  }

  /** The same rate for one visitor, while the bounded table remembers it. */
  lemma AVisitorStaysWithinTheRate(g: Gate, s: State, events: seq<Event>, visitor: Key, from: real, to: real)
    requires Invariant(g, s, from) && Run(g, s, events, from, to) && KeepsVisitor(g, s, events, visitor)
    ensures PaidBy(g, s, events, visitor) <= g.own.capacity + Gain(g.own, from, to) + g.concurrent as real
  {
    BalanceMoves(g.own, s.visitors, visitor, from, from);
    ChargesComeOutOfAVisitorsBalance(g, s, events, visitor, from, to);
    DebtStaysWithinThePlaces(g, s, events, from, to);
  }

  // ------------------------------------------------------------------ what one event does

  /** A request is let in exactly while a place is free and both budgets hold what it asks: no debt where it names a
      render, and one render each where it does not. */
  ghost predicate IsLetIn(g: Gate, s: State, e: Event)
    requires e.Arrive?
  {
    var own := Balance(g.own, s.visitors, e.request.visitor, e.c1);
    var shared := Balance(g.shared, s.everyone, UNKNOWN_VISITOR, e.c2);
    s.inFlight < g.concurrent && if e.request.named then own >= 0.0 && shared >= 0.0 else own >= 1.0 && shared >= 1.0
  }

  /** A new render is paid for as it is let in, and one a request named as it comes back with new audio. */
  ghost predicate IsPaidFor(g: Gate, s: State, e: Event) {
    if e.Arrive? then IsLetIn(g, s, e) && !e.request.named else e.newAudio && e.id in s.flying && s.flying[e.id].named
  }

  ghost function PayerOf(s: State, e: Event): Key
    requires Enabled(s, e)
  {
    if e.Arrive? then e.request.visitor else s.flying[e.id].visitor
  }

  /** What one event does: who flies from then on, and of both budgets one render is spent exactly if it pays for one,
      of the visitor's own and everyone's. */
  lemma StepsAreExact(g: Gate, s: State, e: Event, from: real, other: Key)
    requires Invariant(g, s, from) && Enabled(s, e) && e.InOrder() && from <= e.Begin()
    ensures var s', paid := Step(g, s, e), if IsPaidFor(g, s, e) then 1.0 else 0.0;
      var payer, at, next := PayerOf(s, e), if e.Arrive? then e.c3 else e.c1, e.End();
      && s'.flying == (if e.Arrive? then if IsLetIn(g, s, e) then s.flying[e.id := e.request] else s.flying
                       else s.flying - {e.id})
      && s'.inFlight == (if e.Arrive? then if IsLetIn(g, s, e) then s.inFlight + 1 else s.inFlight
                         else s.inFlight - 1)
      && Balance(g.own, s'.visitors, payer, at) == Balance(g.own, s.visitors, payer, at) - paid
      && Balance(g.shared, s'.everyone, UNKNOWN_VISITOR, next)
         == Balance(g.shared, s.everyone, UNKNOWN_VISITOR, next) - paid
      && (other != payer && other in s'.visitors.buckets ==>
            Balance(g.own, s'.visitors, other, at) == Balance(g.own, s.visitors, other, at))
  {
    match e
    case Arrive(_, request, c1, c2, c3, c4) =>
      GrantsArePlain(g.own, g.shared, s.visitors, s.everyone, request.visitor, request.named, c1, c2);
      hide Balance, Settled, AfterAll, AdmissionCalls, BothGrant;
      if s.inFlight < g.concurrent {
        AdmissionsSpend(g.own, s.visitors, request.visitor, request.named, Passes(g, s, e), from, c1, c3, other);
        AdmissionsSpend(g.shared, s.everyone, UNKNOWN_VISITOR, request.named, Passes(g, s, e), from, c2, c4, other);
      } else {
        assert AfterAll(g.own, s.visitors, []) == s.visitors by { NoCalls(g.own, s.visitors); }
        assert AfterAll(g.shared, s.everyone, []) == s.everyone by { NoCalls(g.shared, s.everyone); }
      }
    case Finish(id, newAudio, c1, c2) =>
      assert s.inFlight > 0 by { assert s.flying.Keys >= {id}; SubsetIsNoLarger({id}, s.flying.Keys); }
      NoCalls(g.own, s.visitors);
      NoCalls(g.shared, s.everyone);
      PaymentsSpend(g.own, s.visitors, s.flying[id].visitor, from, c1, other);
      PaymentsSpend(g.shared, s.everyone, UNKNOWN_VISITOR, from, c2, other);
      hide Balance, Settled, AfterAll, Covers;
  }

  lemma NoCalls(l: Limits, t: Table)
    requires l.refill > 0.0
    ensures AfterAll(l, t, []) == t
  {
  }

  lemma PaymentsSpend(l: Limits, t: Table, key: Key, from: real, at: real, other: Key)
    requires Settled(l, t, from) && from <= at
    ensures var after := AfterAll(l, t, [Charge(key, 1.0, at)]);
      && Balance(l, after, key, at) == Balance(l, t, key, at) - 1.0
      && (other != key && other in after.buckets ==> Balance(l, after, other, at) == Balance(l, t, other, at))
  {
    SettledLater(l, t, from, at);
    OneCallAlone(l, t, Charge(key, 1.0, at), key, 0.0);
    TouchedBuckets(l, t, key, at);
    ChargedTable(l, t, key, 1.0, at);
    ChargeKeepsBalances(l, t, key, 1.0, key, at);
    hide Touched, Charged, Balance, Settled, AfterAll;
    if other in Charged(l, t, key, 1.0, at).buckets && other != key {
      ChargeKeepsBalances(l, t, key, 1.0, other, at);
    }
  }

  /** How many renders a run pays for, and how many of them one visitor does. */
  ghost function RendersPaid(g: Gate, s: State, events: seq<Event>): nat
    requires g.own.refill > 0.0 && g.shared.refill > 0.0
    decreases |events|
  {
    if events == [] then 0
    else (if IsPaidFor(g, s, events[0]) then 1 else 0) + RendersPaid(g, Step(g, s, events[0]), events[1..])
  }

  ghost function RendersPaidBy(g: Gate, s: State, events: seq<Event>, visitor: Key): nat
    requires g.own.refill > 0.0 && g.shared.refill > 0.0
    decreases |events|
  {
    if events == [] then 0
    else
      (if IsPaidFor(g, s, events[0]) && Enabled(s, events[0]) && PayerOf(s, events[0]) == visitor then 1 else 0)
      + RendersPaidBy(g, Step(g, s, events[0]), events[1..], visitor)
  }

  lemma OneEventPays(g: Gate, s: State, e: Event, visitor: Key)
    requires g.own.refill > 0.0 && g.shared.refill > 0.0 && Enabled(s, e)
    ensures Spent(g.shared, s.everyone, SharedCalls(g, s, e), UNKNOWN_VISITOR)
      == if IsPaidFor(g, s, e) then 1.0 else 0.0
    ensures Spent(g.own, s.visitors, VisitorCalls(g, s, e), visitor)
         == if IsPaidFor(g, s, e) && PayerOf(s, e) == visitor then 1.0 else 0.0
  {
    match e
    case Arrive(_, request, c1, c2, c3, c4) =>
      GrantsArePlain(g.own, g.shared, s.visitors, s.everyone, request.visitor, request.named, c1, c2);
      hide Balance, BothGrant, AdmissionCalls, AfterCall;
      if s.inFlight < g.concurrent {
        AdmissionSpends(g.own, s.visitors, request.visitor, request.named, Passes(g, s, e), c1, c3, visitor);
        AdmissionSpends(g.shared, s.everyone, UNKNOWN_VISITOR, request.named, Passes(g, s, e), c2, c4, UNKNOWN_VISITOR);
      }
    case Finish(id, _, c1, c2) =>
      OneCallAlone(g.own, s.visitors, Charge(s.flying[id].visitor, 1.0, c1), visitor, 0.0);
      OneCallAlone(g.shared, s.everyone, Charge(UNKNOWN_VISITOR, 1.0, c2), UNKNOWN_VISITOR, 0.0);
      hide Balance, AfterCall;
  }

  /** Every render delivered anew is paid for once, out of everyone's budget and its visitor's own: what a run charges
      is what it renders. */
  lemma {:induction false} EveryRenderIsPaidFor(g: Gate, s: State, events: seq<Event>, visitor: Key, from: real,
      to: real)
    requires g.own.refill > 0.0 && g.shared.refill > 0.0 && Run(g, s, events, from, to)
    ensures PaidByAll(g, s, events) == RendersPaid(g, s, events) as real
    ensures PaidBy(g, s, events, visitor) == RendersPaidBy(g, s, events, visitor) as real
    decreases |events|
  {
    if events != [] {
      OneEventPays(g, s, events[0], visitor);
      hide Step, Spent, IsPaidFor, VisitorCalls, SharedCalls;
      EveryRenderIsPaidFor(g, Step(g, s, events[0]), events[1..], visitor, events[0].End(), to);
    }
  }

  // ------------------------------------------------------------------ a visitor forgotten in between

  /** All the calls a run of events makes on the visitors' budget. */
  function VisitorRun(g: Gate, s: State, events: seq<Event>): seq<Call>
    requires g.own.refill > 0.0 && g.shared.refill > 0.0
    decreases |events|
  {
    if events == [] then [] else VisitorCalls(g, s, events[0]) + VisitorRun(g, Step(g, s, events[0]), events[1..])
  }

  // An admission's calls leave the visitor no further in debt than the places.
  lemma AdmissionOwes(l: Limits, t: Table, asked: Key, named: bool, granted: bool, at: real, later: real, owed: nat,
      places: nat, from: real)
    requires Settled(l, t, from) && from <= at <= later && Covers(l, t, asked, owed, places, from) && owed <= places
    requires granted ==> WaitAt(l, t, asked, Needed(named), at) == Granted
    ensures OwesAtMost(l, t, AdmissionCalls(asked, named, granted, at, later), places as real)
  {
    AdmissionCovers(l, t, asked, named, false, at, later, asked, owed, owed, places, from, later);
    AdmissionCovers(l, t, asked, named, false, at, at, asked, owed, owed, places, from, at);
    var after := if granted then 0 else owed;
    AdmissionCovers(l, t, asked, named, granted, at, later, asked, owed, after, places, from, later);
    var calls, asking := AdmissionCalls(asked, named, granted, at, later), WaitFor(asked, Needed(named), at);
    assert AdmissionCalls(asked, named, false, at, at) == [asking];
    assert calls == if granted && !named then [asking] + [Charge(asked, 1.0, later)] else [asking];
    hide AfterCall, WaitAt, Settled, AdmissionCalls;
    OneCallAlone(l, t, asking, asked, places as real);
    if granted && !named {
      var paying := Charge(asked, 1.0, later);
      OneCallAlone(l, AfterCall(l, t, asking), paying, asked, places as real);
      OwedInTurn(l, t, [asking], [paying], places as real);
      SpentInTurn(l, t, [asking], [paying], asked);
    }
  }

  lemma PaymentOwes(l: Limits, t: Table, charged: Key, at: real, owed: nat, places: nat, from: real)
    requires Settled(l, t, from) && from <= at && Covers(l, t, charged, owed, places, from) && owed > 0
    ensures OwesAtMost(l, t, [Charge(charged, 1.0, at)], places as real)
  {
    PaymentCovers(l, t, charged, at, charged, owed, owed - 1, places, from, at);
    hide AfterCall, Settled;
    OneCallAlone(l, t, Charge(charged, 1.0, at), charged, places as real);
  }

  lemma OneEventOwes(g: Gate, s: State, e: Event, from: real)
    requires Invariant(g, s, from) && Enabled(s, e) && e.InOrder() && from <= e.Begin()
    ensures OwesAtMost(g.own, s.visitors, VisitorCalls(g, s, e), g.concurrent as real)
  {
    match e
    case Arrive(_, request, c1, _, c3, _) =>
      var v := request.visitor;
      assert Covers(g.own, s.visitors, v, |OwedBy(s.flying, v)|, g.concurrent, from);
      OwedStaysWithinThePlaces(s.flying, v);
      hide Covers, Settled, OwesAtMost, AdmissionCalls, WaitAt;
      if s.inFlight < g.concurrent {
        AdmissionOwes(g.own, s.visitors, v, request.named, Passes(g, s, e), c1, c3, |OwedBy(s.flying, v)|,
          g.concurrent, from);
      } else {
        NothingOwes(g.own, s.visitors, g.concurrent as real);
      }
    case Finish(id, newAudio, c1, _) =>
      var v := s.flying[id].visitor;
      assert Covers(g.own, s.visitors, v, |OwedBy(s.flying, v)|, g.concurrent, from);
      hide Covers, Settled, OwesAtMost;
      if newAudio && s.flying[id].named {
        assert id in OwedBy(s.flying, v);
        PaymentOwes(g.own, s.visitors, v, c1, |OwedBy(s.flying, v)|, g.concurrent, from);
      } else {
        NothingOwes(g.own, s.visitors, g.concurrent as real);
      }
  }

  lemma NothingOwes(l: Limits, t: Table, debt: real)
    requires l.refill > 0.0
    ensures OwesAtMost(l, t, [], debt)
  {
  }

  lemma CostsInTurn(one: seq<Call>, two: seq<Call>)
    requires Costs(one) && Costs(two)
    ensures Costs(one + two)
  {
  }

  /** The visitors' budget over a run of events is a run of calls: its table, what it charges a visitor, and its debts,
      which the places bound. */
  lemma {:induction false} EventsAreCalls(g: Gate, s: State, events: seq<Event>, visitor: Key, from: real, to: real)
    requires Invariant(g, s, from) && Run(g, s, events, from, to)
    ensures var calls := VisitorRun(g, s, events);
      && AfterAll(g.own, s.visitors, calls) == StepAll(g, s, events).visitors
      && Spent(g.own, s.visitors, calls, visitor) == PaidBy(g, s, events, visitor)
      && Timely(calls, from, to) && Costs(calls) && OwesAtMost(g.own, s.visitors, calls, g.concurrent as real)
    decreases |events|
  {
    if events == [] {
    } else {
      var e := events[0];
      var next, one := Step(g, s, e), VisitorCalls(g, s, e);
      assert next.visitors == AfterAll(g.own, s.visitors, one);
      StepKeepsTheInvariant(g, s, e, from);
      OneEventOwes(g, s, e, from);
      VisitorCallsAreTimely(g, s, e, from);
      hide Invariant, Step, VisitorCalls, AfterAll, Spent, OwesAtMost, Costs, Timely;
      EventsAreCalls(g, next, events[1..], visitor, e.End(), to);
      var rest := VisitorRun(g, next, events[1..]);
      TimelyInTurn(one, rest, from, e.End(), to);
      CostsInTurn(one, rest);
      OwedInTurn(g.own, s.visitors, one, rest, g.concurrent as real);
      SpentInTurn(g.own, s.visitors, one, rest, visitor);
    }
  }

  /** Over any window, through every forgetting: a visitor's charges stay within the capacity, what refills and the
      places, as long as no stretch shorter than the whole debt takes to refill brings more visitors than the table
      holds. */
  lemma FewVisitorsKeepTheRate(g: Gate, before: seq<Event>, window: seq<Event>, visitor: Key, begun: real, from: real,
      to: real)
    requires g.Valid() && g.own.bound.AtMost? && Run(g, FIRST, before, begun, from)
    requires Run(g, StepAll(g, FIRST, before), window, from, to)
    requires var s := StepAll(g, FIRST, before);
      FewKeysAtOnce(
        g.own, VisitorRun(g, FIRST, before) + VisitorRun(g, s, window), g.concurrent as real, g.own.bound.keys)
    ensures PaidBy(g, StepAll(g, FIRST, before), window, visitor)
         <= g.own.capacity + Gain(g.own, from, to) + g.concurrent as real
  {
    var s := StepAll(g, FIRST, before);
    var one, two := VisitorRun(g, FIRST, before), VisitorRun(g, s, window);
    assert FIRST.visitors == EMPTY && g.concurrent as real >= 0.0 && g.own.Valid() && g.own.refill > 0.0;
    TheFirstState(g, begun);
    hide *;
    DebtStaysWithinThePlaces(g, FIRST, before, begun, from);
    EventsAreCalls(g, FIRST, before, visitor, begun, from);
    EventsAreCalls(g, s, window, visitor, from, to);
    OwedInTurn(g.own, EMPTY, one, two, g.concurrent as real);
    CostsInTurn(one, two);
    IsARunInto(g.own, one, two, g.concurrent as real, begun, from, to);
    FewKeysKeepTheRate(g.own, one, two, visitor, g.concurrent as real, begun, from, to);
  }

  lemma IsARunInto(l: Limits, before: seq<Call>, window: seq<Call>, debt: real, begun: real, from: real, to: real)
    requires l.refill > 0.0 && Timely(before, begun, from) && Timely(window, from, to)
    requires Costs(before + window) && OwesAtMost(l, EMPTY, before + window, debt)
    ensures RunsInto(l, before, window, debt, begun, from, to)
  {
  }

  /** A request turned away, for want of a place or of either budget, spends nothing of either: every balance
      is from then on what it would have been. */
  lemma RefusalsSpendNothing(g: Gate, s: State, e: Event, visitor: Key, from: real, later: real)
    requires Invariant(g, s, from) && Enabled(s, e) && e.InOrder() && from <= e.Begin() && e.End() <= later
    requires e.Arrive? && (s.inFlight >= g.concurrent || !Passes(g, s, e))
    requires Remembers(g.own, s.visitors, VisitorCalls(g, s, e), visitor)
    ensures Step(g, s, e).flying == s.flying && Step(g, s, e).inFlight == s.inFlight
    ensures Balance(g.own, Step(g, s, e).visitors, visitor, later) == Balance(g.own, s.visitors, visitor, later)
    ensures Balance(g.shared, Step(g, s, e).everyone, UNKNOWN_VISITOR, later)
      == Balance(g.shared, s.everyone, UNKNOWN_VISITOR, later)
  {
    SharedCallsAreTimely(g, s, e, from);
    VisitorCallsAreTimely(g, s, e, from);
    var own, shared := VisitorCalls(g, s, e), SharedCalls(g, s, e);
    CallsHoldTheirKeyAlone(g.shared, s.everyone, shared, UNKNOWN_VISITOR, from, e.End());
    if s.inFlight < g.concurrent {
      assert own == [WaitFor(e.request.visitor, Needed(e.request.named), e.c1)];
      assert shared == [WaitFor(UNKNOWN_VISITOR, Needed(e.request.named), e.c2)];
      OneWaitIsQuiet(g.own, s.visitors, own, visitor);
      OneWaitIsQuiet(g.shared, s.everyone, shared, UNKNOWN_VISITOR);
    }
    TimelyLonger(own, from, e.End(), later);
    TimelyLonger(shared, from, e.End(), later);
    QuietRunsMoveNoBalance(g.own, s.visitors, own, visitor, from, later);
    QuietRunsMoveNoBalance(g.shared, s.everyone, shared, UNKNOWN_VISITOR, from, later);
  }

  lemma OneWaitIsQuiet(l: Limits, t: Table, calls: seq<Call>, key: Key)
    requires l.refill > 0.0 && |calls| == 1 && calls[0].WaitFor?
    ensures Quiet(l, t, calls, key)
  {
    assert calls[1..] == [];
  }

  lemma {:induction false} TimelyLonger(calls: seq<Call>, from: real, to: real, later: real)
    requires Timely(calls, from, to) && to <= later
    ensures Timely(calls, from, later)
    decreases |calls|
  {
    if calls != [] {
      TimelyLonger(calls[1..], calls[0].End(), to, later);
    }
  }
}
