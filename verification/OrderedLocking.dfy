/** Concurrent ingest transactions over shared rows (src/sampleextract/ingest.py): each takes its module's
    row first and its samples' rows in ascending hash order, holding what it writes until it ends. */
module OrderedLocking {
  import opened Sorting

  type Hash = nat

  datatype Row = ModuleRow(hash: Hash) | SampleRow(hash: Hash) | ThumbnailRow(hash: Hash)

  /** The order every transaction takes rows in. */
  function Rank(row: Row): nat {
    match row
    case ModuleRow(_) => 0
    case SampleRow(hash) => 1 + 2 * hash
    case ThumbnailRow(hash) => 2 + 2 * hash
  }

  ghost predicate Ascends(plan: seq<Row>) {
    forall i, j :: 0 <= i < j < |plan| ==> Rank(plan[i]) < Rank(plan[j])
  }

  /** What every ingest takes: its module's row, then rows ever further on. */
  ghost predicate IsPlan(plan: seq<Row>) {
    Ascends(plan) && |plan| > 0 && plan[0].ModuleRow?
  }

  // ------------------------------------------------------------------ one transaction's rows

  datatype Occurrence = Occurrence(instrument: nat, slot: nat, sampleHash: Hash)

  function ContentRows(hashes: seq<Hash>): seq<Row> {
    if hashes == [] then [] else [SampleRow(hashes[0]), ThumbnailRow(hashes[0])] + ContentRows(hashes[1..])
  }

  lemma {:induction false} ContentRowsAscend(hashes: seq<Hash>, floor: nat)
    requires forall i, j :: 0 <= i < j < |hashes| ==> hashes[i] < hashes[j]
    requires forall h :: h in hashes ==> h >= floor
    ensures Ascends(ContentRows(hashes))
    ensures forall r :: r in ContentRows(hashes) ==> Rank(r) >= 1 + 2 * floor
  {
    if hashes != [] {
      var h, rest := hashes[0], ContentRows(hashes[1..]);
      assert forall g :: g in hashes[1..] ==> g >= h + 1;
      ContentRowsAscend(hashes[1..], h + 1);
      var rows := ContentRows(hashes);
      assert rows == [SampleRow(h), ThumbnailRow(h)] + rest;
      forall r | r in rows
        ensures Rank(r) >= 1 + 2 * floor
      {
        assert r == SampleRow(h) || r == ThumbnailRow(h) || r in rest;
        assert h in hashes;
      }
      forall i, j | 0 <= i < j < |rows|
        ensures Rank(rows[i]) < Rank(rows[j])
      {
        if j >= 2 {
          assert rows[j] == rest[j - 2];
          if i >= 2 { assert rows[i] == rest[i - 2]; }
        }
      }
    }
  }

  ghost predicate ReachedBy(occurrences: seq<Occurrence>, h: Hash) {
    exists o :: o in occurrences && o.sampleHash == h
  }

  /** Each sample hash the occurrences reach, once, in ascending order. */
  method DistinctSamples(occurrences: seq<Occurrence>) returns (hashes: seq<Hash>)
    ensures forall i, j :: 0 <= i < j < |hashes| ==> hashes[i] < hashes[j]
    ensures forall h :: h in hashes <==> ReachedBy(occurrences, h)
  {
    var distinctHashes: set<Hash> := {};
    for i := 0 to |occurrences|
      invariant forall h :: h in distinctHashes <==> ReachedBy(occurrences[..i], h)
    {
      assert occurrences[..i + 1] == occurrences[..i] + [occurrences[i]];
      distinctHashes := distinctHashes + {occurrences[i].sampleHash};
    }
    assert occurrences[..|occurrences|] == occurrences;
    hide ReachedBy;
    var listing := Listed(distinctHashes);
    hashes := Sort(NoGreater, listing);
    SortIsSorted(NoGreater, listing);
    SortedSetIsStrict(hashes, distinctHashes);
  }

  /** The rows an ingest takes, in order: its module's, then the sample and thumbnail row of every distinct
      sample it reaches, by ascending hash. */
  method RowsTaken(moduleHash: Hash, occurrences: seq<Occurrence>) returns (plan: seq<Row>)
    ensures IsPlan(plan) && plan[0] == ModuleRow(moduleHash)
    ensures forall h :: SampleRow(h) in plan <==> ReachedBy(occurrences, h)
    ensures forall h :: ThumbnailRow(h) in plan <==> ReachedBy(occurrences, h)
    ensures forall i, j | 0 < i < j < |plan| ::
      plan[i].hash < plan[j].hash || (plan[i].hash == plan[j].hash && plan[i].SampleRow? && plan[j].ThumbnailRow?)
  {
    var hashes := DistinctSamples(occurrences);
    plan := [ModuleRow(moduleHash)];
    hide *;
    TheRowsOf(moduleHash, occurrences, hashes);
    for i := 0 to |hashes|
      invariant plan + ContentRows(hashes[i..]) == [ModuleRow(moduleHash)] + ContentRows(hashes)
    {
      RowsOfTheFirst(hashes[i..]);
      assert hashes[i..][1..] == hashes[i + 1..];
      plan := plan + [SampleRow(hashes[i]), ThumbnailRow(hashes[i])];
    }
    RowsOfNone();
    assert plan == [ModuleRow(moduleHash)] + ContentRows(hashes);
  }

  lemma RowsOfNone()
    ensures ContentRows([]) == []
  {
  }

  lemma RowsOfTheFirst(hashes: seq<Hash>)
    requires hashes != []
    ensures ContentRows(hashes) == [SampleRow(hashes[0]), ThumbnailRow(hashes[0])] + ContentRows(hashes[1..])
  {
  }

  lemma TheRowsOf(moduleHash: Hash, occurrences: seq<Occurrence>, hashes: seq<Hash>)
    requires forall i, j :: 0 <= i < j < |hashes| ==> hashes[i] < hashes[j]
    requires forall h :: h in hashes <==> ReachedBy(occurrences, h)
    ensures var plan := [ModuleRow(moduleHash)] + ContentRows(hashes);
      && IsPlan(plan) && plan[0] == ModuleRow(moduleHash)
      && (forall h :: SampleRow(h) in plan <==> ReachedBy(occurrences, h))
      && (forall h :: ThumbnailRow(h) in plan <==> ReachedBy(occurrences, h))
      && forall i, j | 0 < i < j < |plan| ::
        plan[i].hash < plan[j].hash || (plan[i].hash == plan[j].hash && plan[i].SampleRow? && plan[j].ThumbnailRow?)
  {
    ContentRowsAscend(hashes, 0);
    ContentRowsAreTheHashes(hashes);
    hide ReachedBy, ContentRows;
    var plan := [ModuleRow(moduleHash)] + ContentRows(hashes);
    assert IsPlan(plan);
    hide *;
    PlansAreInOrder(plan);
  }

  lemma PlansAreInOrder(plan: seq<Row>)
    requires IsPlan(plan)
    ensures forall i, j | 0 < i < j < |plan| ::
      plan[i].hash < plan[j].hash || (plan[i].hash == plan[j].hash && plan[i].SampleRow? && plan[j].ThumbnailRow?)
  {
    forall i, j | 0 < i < j < |plan|
      ensures plan[i].hash < plan[j].hash
        || (plan[i].hash == plan[j].hash && plan[i].SampleRow? && plan[j].ThumbnailRow?)
    {
      assert Rank(plan[0]) < Rank(plan[i]) < Rank(plan[j]);
    }
  }

  lemma {:induction false} ContentRowsAreTheHashes(hashes: seq<Hash>)
    ensures forall h :: SampleRow(h) in ContentRows(hashes) <==> h in hashes
    ensures forall h :: ThumbnailRow(h) in ContentRows(hashes) <==> h in hashes
    ensures forall h :: ModuleRow(h) !in ContentRows(hashes)
  {
    if hashes != [] {
      ContentRowsAreTheHashes(hashes[1..]);
      assert forall h :: h in hashes <==> h == hashes[0] || h in hashes[1..];
    }
  }

  // ------------------------------------------------------------------ the transactions together

  /** How far one transaction is through its plan, and what it holds until it ends. */
  datatype Transaction = Transaction(plan: seq<Row>, taken: nat, held: set<Row>, running: bool)

  /** The committed rows, and the modules landed, in the order their transactions committed. */
  datatype State = State(transactions: seq<Transaction>, committed: set<Row>, landed: seq<Hash>)

  predicate Unfinished(s: State, i: nat) {
    i < |s.transactions| && s.transactions[i].running && s.transactions[i].taken < |s.transactions[i].plan|
  }

  function NextRow(s: State, i: nat): Row
    requires Unfinished(s, i)
  {
    s.transactions[i].plan[s.transactions[i].taken]
  }

  /** Transaction i asks for a row that j holds. */
  predicate WaitsFor(s: State, i: nat, j: nat) {
    i != j && j < |s.transactions| && Unfinished(s, i) && NextRow(s, i) in s.transactions[j].held
  }

  ghost predicate CanAdvance(s: State, i: nat) {
    && i < |s.transactions| && s.transactions[i].running
    && forall j :: !WaitsFor(s, i, j)
  }

  function Ended(t: Transaction): Transaction {
    t.(held := {}, running := false)
  }

  /** One step: a row taken, a duplicate module turned back, or everything held committed at the end. An
      insert that does nothing on a sample already committed holds nothing. */
  function Advance(s: State, i: nat): State
    requires i < |s.transactions|
  {
    var t := s.transactions[i];
    if t.taken >= |t.plan| then
      State(
        s.transactions[i := Ended(t)],
        s.committed + t.held,
        s.landed + if |t.plan| > 0 && t.plan[0].ModuleRow? then [t.plan[0].hash] else [])
    else
      var row := t.plan[t.taken];
      if row.ModuleRow? && row in s.committed then s.(transactions := s.transactions[i := Ended(t)])
      else
        var held := if row.SampleRow? && row in s.committed then t.held else t.held + {row};
        s.(transactions := s.transactions[i := t.(taken := t.taken + 1, held := held)])
  }

  /** A transaction failing or stopped at any point: everything it wrote is rolled back. */
  function Abort(s: State, i: nat): State
    requires i < |s.transactions|
  {
    s.(transactions := s.transactions[i := Ended(s.transactions[i])])
  }

  datatype Move = Advancing(i: nat) | Aborting(i: nat)

  ghost predicate Enabled(s: State, m: Move) {
    match m
    case Advancing(i) => CanAdvance(s, i)
    case Aborting(i) => i < |s.transactions| && s.transactions[i].running
  }

  function Moved(s: State, m: Move): State
    requires m.i < |s.transactions|
  {
    if m.Advancing? then Advance(s, m.i) else Abort(s, m.i)
  }

  ghost predicate Sound(s: State, i: nat)
    requires i < |s.transactions|
  {
    var t := s.transactions[i];
    && IsPlan(t.plan) && t.taken <= |t.plan|
    && (forall r :: r in t.held ==> r in t.plan[..t.taken])
    && (t.running && t.taken > 0 ==> t.plan[0] in t.held)
    && (!t.running ==> t.held == {})
    && (forall r :: r in t.held && r.ModuleRow? ==> r !in s.committed)
  }

  ghost predicate AllSound(s: State) {
    forall i {:trigger Sound(s, i)} :: 0 <= i < |s.transactions| ==> Sound(s, i)
  }

  ghost predicate Exclusive(s: State) {
    forall i, j, r | 0 <= i < |s.transactions| && 0 <= j < |s.transactions| ::
      r in s.transactions[i].held && r in s.transactions[j].held ==> i == j
  }

  ghost predicate LandedOnce(s: State) {
    (forall h :: h in s.landed ==> ModuleRow(h) in s.committed) && Distinct(s.landed)
  }

  /** What every step keeps: each transaction holds only rows it has passed, no row is held twice, and no module lands
      twice. */
  ghost predicate Invariant(s: State) {
    AllSound(s) && Exclusive(s) && LandedOnce(s)
  }

  lemma AdvancingStaysSound(s: State, i: nat)
    requires AllSound(s) && Exclusive(s) && CanAdvance(s, i)
    ensures AllSound(Advance(s, i))
  {
    var s', t := Advance(s, i), s.transactions[i];
    assert Sound(s, i);
    forall k | 0 <= k < |s'.transactions|
      ensures Sound(s', k)
    {
      assert Sound(s, k);
      if k == i && t.taken < |t.plan| {
        assert t.plan[..t.taken + 1] == t.plan[..t.taken] + [t.plan[t.taken]];
      }
    }
  }

  lemma AdvancingStaysExclusive(s: State, i: nat)
    requires Exclusive(s) && CanAdvance(s, i)
    ensures Exclusive(Advance(s, i))
  {
    var s' := Advance(s, i);
    forall a, b, r |
      0 <= a < |s'.transactions| && 0 <= b < |s'.transactions| && r in s'.transactions[a].held
        && r in s'.transactions[b].held
      ensures a == b
    {
      assert !WaitsFor(s, i, a) && !WaitsFor(s, i, b);
    }
  }

  lemma AdvancingLandsOnce(s: State, i: nat)
    requires Invariant(s) && CanAdvance(s, i)
    ensures LandedOnce(Advance(s, i))
  {
    assert Sound(s, i);
    var t := s.transactions[i];
    if t.taken >= |t.plan| {
      assert t.plan[0] in t.held && t.plan[0] !in s.committed;
      assert t.plan[0].hash !in s.landed;
    }
  }

  lemma MovesKeepTheInvariant(s: State, m: Move)
    requires Invariant(s) && Enabled(s, m)
    ensures Invariant(Moved(s, m))
  {
    if m.Advancing? {
      AdvancingStaysSound(s, m.i);
      AdvancingStaysExclusive(s, m.i);
      AdvancingLandsOnce(s, m.i);
    } else {
      forall k | 0 <= k < |s.transactions|
        ensures Sound(Abort(s, m.i), k)
      {
        assert Sound(s, k);
      }
    }
  }

  // ------------------------------------------------------------------ no deadlock

  /** Every transaction but the last waits for the one after it. */
  ghost predicate WaitChain(s: State, chain: seq<nat>) {
    forall k :: 0 <= k < |chain| - 1 ==> WaitsFor(s, chain[k], chain[k + 1])
  }

  lemma WaitingClimbs(s: State, i: nat, j: nat)
    requires AllSound(s) && WaitsFor(s, i, j) && Unfinished(s, j)
    ensures Rank(NextRow(s, i)) < Rank(NextRow(s, j))
  {
    assert Sound(s, j);
    var t, row := s.transactions[j], NextRow(s, i);
    var k :| 0 <= k < t.taken && t.plan[..t.taken][k] == row;
    assert t.plan[k] == row;
  }

  lemma {:induction false} ChainsClimb(s: State, chain: seq<nat>)
    requires AllSound(s) && WaitChain(s, chain) && |chain| >= 2 && Unfinished(s, chain[|chain| - 1])
    ensures Unfinished(s, chain[0]) && Rank(NextRow(s, chain[0])) < Rank(NextRow(s, chain[|chain| - 1]))
    decreases |chain|
  {
    assert WaitsFor(s, chain[0], chain[1]);
    if |chain| > 2 {
      forall k | 0 <= k < |chain[1..]| - 1
        ensures WaitsFor(s, chain[1..][k], chain[1..][k + 1])
      {
        assert WaitsFor(s, chain[k + 1], chain[k + 2]);
      }
      ChainsClimb(s, chain[1..]);
    }
    WaitingClimbs(s, chain[0], chain[1]);
  }

  /** No cycle of transactions each waiting for the next. */
  lemma NoDeadlock(s: State, chain: seq<nat>)
    requires AllSound(s) && WaitChain(s, chain) && |chain| >= 2
    ensures chain[0] != chain[|chain| - 1]
  {
    assert WaitsFor(s, chain[0], chain[1]);
    if chain[0] == chain[|chain| - 1] {
      ChainsClimb(s, chain);
    }
  }

  // The one, among the first n, that asks for the row furthest on.
  lemma {:induction false} FurthestOn(s: State, n: nat) returns (i: nat)
    requires n <= |s.transactions|
    ensures i < n ==> Unfinished(s, i)
    ensures forall k :: 0 <= k < n && Unfinished(s, k) ==> i < n && Rank(NextRow(s, k)) <= Rank(NextRow(s, i))
  {
    if n == 0 {
      i := 0;
    } else {
      i := FurthestOn(s, n - 1);
      if Unfinished(s, n - 1) && (i >= n - 1 || Rank(NextRow(s, i)) < Rank(NextRow(s, n - 1))) {
        i := n - 1;
      } else if i >= n - 1 {
        i := n;
      }
    }
  }

  /** While any transaction runs, some transaction can take its next step without waiting. */
  lemma SomeTransactionAdvances(s: State, running: nat) returns (i: nat)
    requires Invariant(s) && running < |s.transactions| && s.transactions[running].running
    ensures CanAdvance(s, i)
  {
    i := FurthestOn(s, |s.transactions|);
    if i >= |s.transactions| {
      i := running;
    } else if exists j :: WaitsFor(s, i, j) {
      var j :| WaitsFor(s, i, j);
      assert Sound(s, j);
      if Unfinished(s, j) {
        WaitingClimbs(s, i, j);
      } else {
        i := j;
      }
    }
  }

  // ------------------------------------------------------------------ every run ends

  function StepsLeft(t: Transaction): nat {
    if !t.running then 0 else if t.taken <= |t.plan| then |t.plan| - t.taken + 1 else 1
  }

  function Measure(transactions: seq<Transaction>): nat {
    if transactions == [] then 0 else StepsLeft(transactions[0]) + Measure(transactions[1..])
  }

  lemma {:induction false} MeasureOfOneChange(transactions: seq<Transaction>, i: nat, t: Transaction)
    requires i < |transactions| && StepsLeft(t) < StepsLeft(transactions[i])
    ensures Measure(transactions[i := t]) < Measure(transactions)
  {
    if i == 0 {
      assert transactions[i := t][1..] == transactions[1..];
    } else {
      assert transactions[i := t][1..] == transactions[1..][i - 1 := t];
      MeasureOfOneChange(transactions[1..], i - 1, t);
    }
  }

  lemma MovesUseUpSteps(s: State, m: Move)
    requires Invariant(s) && Enabled(s, m)
    ensures Measure(Moved(s, m).transactions) < Measure(s.transactions)
  {
    assert Sound(s, m.i);
    MeasureOfOneChange(s.transactions, m.i, Moved(s, m).transactions[m.i]);
  }

  ghost predicate Run(s: State, moves: seq<Move>)
    decreases |moves|
  {
    moves != [] ==> Enabled(s, moves[0]) && Run(Moved(s, moves[0]), moves[1..])
  }

  ghost function After(s: State, moves: seq<Move>): State
    requires Run(s, moves)
    decreases |moves|
  {
    if moves == [] then s else After(Moved(s, moves[0]), moves[1..])
  }

  /** Every run of steps, stopped and failed transactions among them, is no longer than the steps planned; a run that
      cannot go on has ended every transaction, and along it no module landed twice. */
  lemma {:induction false} EveryRunEnds(s: State, moves: seq<Move>)
    requires Invariant(s) && Run(s, moves)
    ensures Invariant(After(s, moves)) && |moves| + Measure(After(s, moves).transactions) <= Measure(s.transactions)
    ensures (forall i :: !CanAdvance(After(s, moves), i)) ==> forall t :: t in After(s, moves).transactions ==>
      !t.running
    decreases |moves|
  {
    if moves == [] {
      if exists t :: t in s.transactions && t.running {
        var t :| t in s.transactions && t.running;
        var k :| 0 <= k < |s.transactions| && s.transactions[k] == t;
        var i := SomeTransactionAdvances(s, k);
      }
    } else {
      hide Invariant, Enabled, Moved;
      MovesKeepTheInvariant(s, moves[0]);
      MovesUseUpSteps(s, moves[0]);
      EveryRunEnds(Moved(s, moves[0]), moves[1..]);
    }
  }

  /** Ingests about to take their first row, over whatever rows are committed already. */
  function Started(plans: seq<seq<Row>>, committed: set<Row>): State {
    State(seq(|plans|, i requires 0 <= i < |plans| => Transaction(plans[i], 0, {}, true)), committed, [])
  }

  lemma PlansStartSound(plans: seq<seq<Row>>, committed: set<Row>)
    requires forall plan :: plan in plans ==> IsPlan(plan)
    ensures Invariant(Started(plans, committed))
  {
    hide IsPlan;
    forall i | 0 <= i < |plans|
      ensures Sound(Started(plans, committed), i)
    {
      assert plans[i] in plans;
    }
  }

  /** From any ingests' own plans, any interleaving of their steps, stops and failures keeps every row held once and
      lands no module twice; no transactions wait in a circle; and a run that cannot go on has ended them all. */
  lemma IngestsAlwaysEnd(plans: seq<seq<Row>>, committed: set<Row>, moves: seq<Move>, chain: seq<nat>)
    requires (forall plan :: plan in plans ==> IsPlan(plan)) && Run(Started(plans, committed), moves)
    ensures var end := After(Started(plans, committed), moves);
      && Invariant(end) && |moves| <= Measure(Started(plans, committed).transactions)
      && (WaitChain(end, chain) && |chain| >= 2 ==> chain[0] != chain[|chain| - 1])
      && ((forall i :: !CanAdvance(end, i)) ==> forall t :: t in end.transactions ==> !t.running)
  {
    PlansStartSound(plans, committed);
    hide Started, Measure;
    EveryRunEnds(Started(plans, committed), moves);
    var end := After(Started(plans, committed), moves);
    if WaitChain(end, chain) && |chain| >= 2 {
      NoDeadlock(end, chain);
    }
  }

  // ------------------------------------------------------------------ what the transactions commit

  /** What a transaction's moves so far came to. One still running has passed so many rows, each held or already
      committed. One that has ended committed its whole plan, advancing once for each row and once more; or stopped or
      failed; or was turned back at its first step, its module already there. */
  ghost predicate Told(plan: seq<Row>, t: Transaction, committed: set<Row>, steps: nat, stopped: bool, commits: bool) {
    && t.plan == plan && t.taken <= |plan|
    && (t.running ==>
        !commits && !stopped && steps == t.taken && (forall r :: r in t.held ==> r in plan)
        && forall k :: 0 <= k < t.taken ==> plan[k] in t.held || plan[k] in committed)
    && (!t.running ==>
        if commits then !stopped && steps == |plan| + 1
        else if stopped then steps <= |plan|
        else steps == 1 && |plan| > 0 && plan[0] in committed)
  }

  function Steps(moves: seq<Move>, i: nat): nat {
    multiset(moves)[Advancing(i)]
  }

  ghost predicate AllTold(plans: seq<seq<Row>>, moves: seq<Move>, committers: seq<nat>, s: State) {
    && |s.transactions| == |plans|
    && forall i :: 0 <= i < |plans| ==>
      Told(plans[i], s.transactions[i], s.committed, Steps(moves, i), Aborting(i) in moves, i in committers)
  }

  /** The rows committed are those there before and the whole plans of the transactions that committed, in the order
      their modules landed. */
  ghost predicate Accounts(plans: seq<seq<Row>>, before: set<Row>, committers: seq<nat>, s: State) {
    && Distinct(committers) && |s.landed| == |committers|
    && (forall k :: 0 <= k < |committers| ==>
          committers[k] < |plans| && plans[committers[k]] != [] && plans[committers[k]][0] == ModuleRow(s.landed[k]))
    && forall r :: r in s.committed <==> r in before || exists i :: i in committers && i < |plans| && r in plans[i]
  }

  lemma ToldLater(plan: seq<Row>, t: Transaction, committed: set<Row>, later: set<Row>, steps: nat, stopped: bool,
      commits: bool)
    requires Told(plan, t, committed, steps, stopped, commits) && committed <= later
    ensures Told(plan, t, later, steps, stopped, commits)
  {
  }

  lemma OneMoveCounted(moves: seq<Move>, m: Move, i: nat)
    ensures Steps(moves + [m], i) == Steps(moves, i) + if m == Advancing(i) then 1 else 0
    ensures Aborting(i) in moves + [m] <==> Aborting(i) in moves || m == Aborting(i)
  {
  }

  /** The one whose move it is. */
  lemma TheMoverIsTold(plan: seq<Row>, s: State, m: Move, steps: nat)
    requires Enabled(s, m) && IsPlan(plan) && Told(plan, s.transactions[m.i], s.committed, steps, false, false)
    ensures var t, t' := s.transactions[m.i], Moved(s, m).transactions[m.i];
      Told(plan, t', Moved(s, m).committed, if m.Advancing? then steps + 1 else steps, m.Aborting?,
        m.Advancing? && t.taken >= |t.plan|)
  {
    var t := s.transactions[m.i];
    if 0 < t.taken < |plan| {
      assert Rank(plan[0]) < Rank(plan[t.taken]);
    }
    hide Ascends;
  }

  lemma OthersAreTold(plan: seq<Row>, s: State, m: Move, i: nat, steps: nat, stopped: bool, commits: bool)
    requires Enabled(s, m) && i < |s.transactions| && i != m.i
    requires Told(plan, s.transactions[i], s.committed, steps, stopped, commits)
    ensures Told(plan, Moved(s, m).transactions[i], Moved(s, m).committed, steps, stopped, commits)
  {
    var s' := Moved(s, m);
    assert s'.transactions[i] == s.transactions[i] && s.committed <= s'.committed;
    hide *;
    ToldLater(plan, s.transactions[i], s.committed, s'.committed, steps, stopped, commits);
  }

  function CommittersAfter(s: State, m: Move, committers: seq<nat>): seq<nat>
    requires m.i < |s.transactions|
  {
    var t := s.transactions[m.i];
    if m.Advancing? && t.taken >= |t.plan| then committers + [m.i] else committers
  }

  lemma AMoveIsTold(plans: seq<seq<Row>>, moves: seq<Move>, committers: seq<nat>, s: State, m: Move)
    requires AllTold(plans, moves, committers, s) && Enabled(s, m) && forall plan :: plan in plans ==> IsPlan(plan)
    ensures AllTold(plans, moves + [m], CommittersAfter(s, m, committers), Moved(s, m))
  {
    forall i | 0 <= i < |plans|
      ensures Told(plans[i], Moved(s, m).transactions[i], Moved(s, m).committed, Steps(moves + [m], i),
        Aborting(i) in moves + [m], i in CommittersAfter(s, m, committers))
    {
      OneMoveCounted(moves, m, i);
      hide Steps, IsPlan;
      if i == m.i {
        assert plans[i] in plans;
        TheMoverIsTold(plans[i], s, m, Steps(moves, i));
      } else {
        hide Told, Enabled;
        OthersAreTold(plans[i], s, m, i, Steps(moves, i), Aborting(i) in moves, i in committers);
      }
    }
  }

  /** A running transaction can be stopped at any point: nothing is committed by it, no other moves, and nobody waits
      for it any longer. */
  lemma AStopFreesItsRows(s: State, i: nat)
    requires i < |s.transactions| && s.transactions[i].running
    ensures Enabled(s, Aborting(i))
    ensures var s' := Moved(s, Aborting(i));
      && s'.committed == s.committed && s'.landed == s.landed && !s'.transactions[i].running
      && |s'.transactions| == |s.transactions|
      && (forall j :: 0 <= j < |s.transactions| && j != i ==> s'.transactions[j] == s.transactions[j])
      && forall j :: !WaitsFor(s', j, i)
  {
  }

  /** A commit adds exactly the rows of its plan. */
  lemma ACommitAddsItsPlan(plan: seq<Row>, s: State, i: nat, steps: nat)
    requires i < |s.transactions| && s.transactions[i].running && s.transactions[i].taken >= |plan| && IsPlan(plan)
    requires Told(plan, s.transactions[i], s.committed, steps, false, false)
    ensures Advance(s, i).committed == s.committed + set r | r in plan
    ensures Advance(s, i).landed == s.landed + [plan[0].hash]
  {
    var t := s.transactions[i];
    hide Ascends;
    forall r
      ensures r in s.committed + t.held <==> r in s.committed || r in plan
    {
      if r in plan {
        var k :| 0 <= k < |plan| && plan[k] == r;
      }
    }
  }

  lemma AMoveIsAccounted(plans: seq<seq<Row>>, before: set<Row>, moves: seq<Move>, committers: seq<nat>, s: State,
      m: Move)
    requires Accounts(plans, before, committers, s) && AllTold(plans, moves, committers, s) && Enabled(s, m)
    requires forall plan :: plan in plans ==> IsPlan(plan)
    ensures Accounts(plans, before, CommittersAfter(s, m, committers), Moved(s, m))
  {
    var t := s.transactions[m.i];
    assert plans[m.i] in plans;
    assert Told(plans[m.i], t, s.committed, Steps(moves, m.i), Aborting(m.i) in moves, m.i in committers);
    hide AllTold;
    if m.Advancing? && t.taken >= |t.plan| {
      ACommitAddsItsPlan(plans[m.i], s, m.i, Steps(moves, m.i));
      assert plans[m.i][0].ModuleRow? && m.i !in committers;
      hide Told, IsPlan, Advance, Enabled, Steps;
      OneMoreCommits(plans, before, committers, s, Moved(s, m), m.i);
    } else {
      assert Moved(s, m).committed == s.committed && Moved(s, m).landed == s.landed;
    }
  }

  lemma OneMoreCommits(plans: seq<seq<Row>>, before: set<Row>, committers: seq<nat>, s: State, s': State, i: nat)
    requires Accounts(plans, before, committers, s) && i < |plans| && i !in committers && plans[i] != []
      && plans[i][0].ModuleRow?
    requires s'.committed == s.committed + (set r | r in plans[i]) && s'.landed == s.landed + [plans[i][0].hash]
    ensures Accounts(plans, before, committers + [i], s')
  {
    forall r
      ensures r in s'.committed <==>
        r in before || exists c :: c in committers + [i] && c < |plans| && r in plans[c]
    {
      if r in plans[i] {
        assert i in committers + [i];
      }
      if c :| c in committers && c < |plans| && r in plans[c] {
        assert c in committers + [i];
      }
    }
  }

  lemma {:induction false} RunsAreAccounted(plans: seq<seq<Row>>, before: set<Row>, past: seq<Move>,
      committers: seq<nat>, s: State, moves: seq<Move>) returns (all: seq<nat>)
    requires Accounts(plans, before, committers, s) && AllTold(plans, past, committers, s) && Run(s, moves)
    requires forall plan :: plan in plans ==> IsPlan(plan)
    ensures Accounts(plans, before, all, After(s, moves)) && AllTold(plans, past + moves, all, After(s, moves))
    decreases |moves|
  {
    hide *;
    if moves == [] {
      all := committers;
      NothingMoves(s);
      assert past + moves == past;
    } else {
      RunsMoveByMove(s, moves);
      var m := moves[0];
      AMoveIsTold(plans, past, committers, s, m);
      AMoveIsAccounted(plans, before, past, committers, s, m);
      all := RunsAreAccounted(plans, before, past + [m], CommittersAfter(s, m, committers), Moved(s, m), moves[1..]);
      assert past + [m] + moves[1..] == past + moves;
    }
  }

  lemma NothingMoves(s: State)
    ensures Run(s, []) && After(s, []) == s
  {
  }

  lemma RunsMoveByMove(s: State, moves: seq<Move>)
    requires Run(s, moves) && moves != []
    ensures moves[0].i < |s.transactions| && Enabled(s, moves[0]) && Run(Moved(s, moves[0]), moves[1..])
    ensures After(s, moves) == After(Moved(s, moves[0]), moves[1..])
  {
  }

  lemma StartsAreAccounted(plans: seq<seq<Row>>, committed: set<Row>)
    ensures Accounts(plans, committed, [], Started(plans, committed))
    ensures AllTold(plans, [], [], Started(plans, committed))
  {
  }

  /** Over every run: what is committed is what was there and the whole plans of the transactions that committed, once
      each. An ended transaction is among them exactly when it went through its plan and one step beyond it; one
      stopped or failed commits nothing; and any other was turned back at its first step, its module committed. */
  lemma CommitsAreWholePlans(plans: seq<seq<Row>>, committed: set<Row>, moves: seq<Move>) returns (committers: seq<nat>)
    requires (forall plan :: plan in plans ==> IsPlan(plan)) && Run(Started(plans, committed), moves)
    ensures var end := After(Started(plans, committed), moves);
      Accounts(plans, committed, committers, end) && AllTold(plans, moves, committers, end)
  {
    StartsAreAccounted(plans, committed);
    hide *;
    committers := RunsAreAccounted(plans, committed, [], [], Started(plans, committed), moves);
    assert [] + moves == moves;
  }

  // Two transactions, so far through their plans, holding all they passed.
  ghost function Two(first: seq<Row>, i: nat, second: seq<Row>, j: nat): State
    requires i <= |first| && j <= |second|
  {
    State([Transaction(first, i, set r | r in first[..i], true),
      Transaction(second, j, set r | r in second[..j], true)], {}, [])
  }

  lemma OneOfTwoTakes(first: seq<Row>, i: nat, second: seq<Row>, j: nat)
    requires i < |first| && j < |second|
    ensures first[i] !in second[..j] ==>
      CanAdvance(Two(first, i, second, j), 0) && Advance(Two(first, i, second, j), 0) == Two(first, i + 1, second, j)
    ensures second[j] !in first[..i] ==>
      CanAdvance(Two(first, i, second, j), 1) && Advance(Two(first, i, second, j), 1) == Two(first, i, second, j + 1)
  {
    assert first[..i + 1] == first[..i] + [first[i]] && second[..j + 1] == second[..j] + [second[j]];
    var s := Two(first, i, second, j);
    if first[i] !in second[..j] {
      assert Two(first, i + 1, second, j).transactions[0].held == s.transactions[0].held + {first[i]};
      assert Advance(s, 0).transactions == Two(first, i + 1, second, j).transactions;
    }
    if second[j] !in first[..i] {
      assert Two(first, i, second, j + 1).transactions[1].held == s.transactions[1].held + {second[j]};
      assert Advance(s, 1).transactions == Two(first, i, second, j + 1).transactions;
    }
  }

  lemma OneMoreMove(s: State, m: Move, moves: seq<Move>)
    requires Enabled(s, m) && Run(Moved(s, m), moves)
    ensures Run(s, [m] + moves) && After(s, [m] + moves) == After(Moved(s, m), moves)
  {
    assert ([m] + moves)[1..] == moves;
  }

  /** Without the order the rule fails: two transactions taking the same two rows crosswise come to wait for each
      other. */
  lemma CrosswisePlansDeadlock(m: Hash, n: Hash, a: Hash, b: Hash) returns (s: State, moves: seq<Move>)
    requires m != n && a != b
    ensures s == Two([ModuleRow(m), SampleRow(a), SampleRow(b)], 0, [ModuleRow(n), SampleRow(b), SampleRow(a)], 0)
    ensures LeadsToWaiting(s, moves)
  {
    var first, second := [ModuleRow(m), SampleRow(a), SampleRow(b)], [ModuleRow(n), SampleRow(b), SampleRow(a)];
    s := Two(first, 0, second, 0);
    assert second[..0] == [] && second[..1] == [ModuleRow(n)] && first[..1] == [ModuleRow(m)];
    assert first[..2] == [ModuleRow(m), SampleRow(a)];
    CrosswiseWaits(first, second, a, b);
    hide *;
    TheSecondSteps(first, 2, second, 1, []);
    TheFirstSteps(first, 1, second, 1, [Advancing(1)] + []);
    TheSecondSteps(first, 1, second, 0, [Advancing(0)] + ([Advancing(1)] + []));
    TheFirstSteps(first, 0, second, 0, [Advancing(1)] + ([Advancing(0)] + ([Advancing(1)] + [])));
    moves := [Advancing(0)] + ([Advancing(1)] + ([Advancing(0)] + ([Advancing(1)] + [])));
  }

  // One of two transactions advances first, and the rest of a run leads on to both waiting.
  lemma StepsOfTwo(s: State, i: nat, next: State, moves: seq<Move>)
    requires CanAdvance(s, i) && Advance(s, i) == next && Run(next, moves)
    requires WaitsFor(After(next, moves), 0, 1) && WaitsFor(After(next, moves), 1, 0)
    ensures Run(s, [Advancing(i)] + moves)
    ensures var end := After(s, [Advancing(i)] + moves); WaitsFor(end, 0, 1) && WaitsFor(end, 1, 0)
  {
    assert Enabled(s, Advancing(i)) && Moved(s, Advancing(i)) == next;
    hide CanAdvance, Advance, WaitsFor;
    OneMoreMove(s, Advancing(i), moves);
  }

  ghost predicate LeadsToWaiting(s: State, moves: seq<Move>) {
    Run(s, moves) && WaitsFor(After(s, moves), 0, 1) && WaitsFor(After(s, moves), 1, 0)
  }

  lemma TheFirstSteps(first: seq<Row>, i: nat, second: seq<Row>, j: nat, moves: seq<Move>)
    requires i < |first| && j < |second| && first[i] !in second[..j]
    requires LeadsToWaiting(Two(first, i + 1, second, j), moves)
    ensures LeadsToWaiting(Two(first, i, second, j), [Advancing(0)] + moves)
  {
    hide CanAdvance, Advance, WaitsFor, Two, Run, After;
    OneOfTwoTakes(first, i, second, j);
    StepsOfTwo(Two(first, i, second, j), 0, Two(first, i + 1, second, j), moves);
  }

  lemma TheSecondSteps(first: seq<Row>, i: nat, second: seq<Row>, j: nat, moves: seq<Move>)
    requires i < |first| && j < |second| && second[j] !in first[..i]
    requires LeadsToWaiting(Two(first, i, second, j + 1), moves)
    ensures LeadsToWaiting(Two(first, i, second, j), [Advancing(1)] + moves)
  {
    hide CanAdvance, Advance, WaitsFor, Two, Run, After;
    OneOfTwoTakes(first, i, second, j);
    StepsOfTwo(Two(first, i, second, j), 1, Two(first, i, second, j + 1), moves);
  }

  lemma CrosswiseWaits(first: seq<Row>, second: seq<Row>, a: Hash, b: Hash)
    requires |first| == |second| == 3
    requires first[1] == second[2] == SampleRow(a) && first[2] == second[1] == SampleRow(b)
    ensures LeadsToWaiting(Two(first, 2, second, 2), [])
  {
    assert SampleRow(b) == second[..2][1] && SampleRow(a) == first[..2][1];
  }
}
