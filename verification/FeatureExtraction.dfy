/** The bounded read-ahead queue (src/samplecore/prefetch.py). Its one thread is folded into the queue: an item is
    worked on once it is queued, so what runs ahead of the consumer is what the queue holds. */
module Prefetch {
  datatype Work<R> = Answered(result: R) | Raised

  datatype Yielded<Item, R> = Yield(item: Item, result: R) | Raising(item: Item) | Finished

  function Min(a: nat, b: nat): (least: nat)
    ensures least <= a && least <= b
  {
    if a <= b then a else b
  }

  class Prefetched<Item(==), R> {
    const items: seq<Item>
    const work: Item -> Work<R>
    const depth: nat
    var started: nat
    var queued: seq<(Item, Work<R>)>
    var closed: bool
    ghost var taken: nat

    /** What is queued is the work on the items after those taken, in order, at most `depth` of them. */
    ghost predicate Valid()
      reads this
    {
      && taken <= started <= |items| && |queued| == started - taken <= depth
      && (forall k :: 0 <= k < |queued| ==> queued[k] == (items[taken + k], work(items[taken + k])))
      && (!closed ==> started == if depth == 0 then 0 else Min(|items|, taken + depth))
    }

    constructor (items: seq<Item>, work: Item -> Work<R>, depth: nat)
      ensures Valid() && !closed && taken == 0
      ensures this.items == items && this.work == work && this.depth == depth
    {
      this.items, this.work, this.depth := items, work, depth;
      started, queued, closed, taken := 0, [], false, 0;
      new;
      while started < Min(|items|, depth)
        invariant started <= Min(|items|, depth) && taken == 0 && !closed
        invariant |queued| == started && forall k :: 0 <= k < |queued| ==> queued[k] == (items[k], work(items[k]))
      {
        queued, started := queued + [(items[started], work(items[started]))], started + 1;
      }
    }

    /** The next item with its result, or the exception its work raised, which ends the reading. */
    method Next() returns (r: Yielded<Item, R>)
      requires Valid() && !closed
      modifies this
      ensures Valid()
      ensures depth == 0 || old(taken) == |items| ==> r == Finished && closed && taken == old(taken)
      ensures depth > 0 && old(taken) < |items| ==>
        && taken == old(taken) + 1
        && r == (match work(items[old(taken)])
                 case Answered(result) => Yield(items[old(taken)], result)
                 case Raised => Raising(items[old(taken)]))
        && closed == work(items[old(taken)]).Raised?
    {
      if queued == [] {
        closed := true;
        return Finished;
      }
      var (item, answer) := queued[0];
      queued, taken := queued[1..], taken + 1;
      if answer.Raised? {
        closed := true;
        return Raising(item);
      }
      if started < |items| {
        queued, started := queued + [(items[started], work(items[started]))], started + 1;
      }
      r := Yield(item, answer.result);
    }
  }
}

/** What an experiment holds, and what a pass over it still has to describe (src/samplecloud/features.py). */
module PendingSamples {
  import opened Sorting

  type Hash = nat

  // The rate a sample was heard at; -1 where the reading records none.
  type Rate = int

  /** The one vector an experiment holds of a sample, by the rate it was heard at. */
  type Held = map<Hash, Rate>

  predicate IsPending(held: Held, rateOf: Hash -> Rate, h: Hash) {
    h !in held || held[h] != rateOf(h)
  }

  function Moved(held: Held, rateOf: Hash -> Rate): set<Hash> {
    set h | h in held && held[h] != rateOf(h)
  }

  function Missing(samples: seq<Hash>, held: Held, rateOf: Hash -> Rate): seq<Hash> {
    Filter((h: Hash) => IsPending(held, rateOf, h), samples)
  }

  datatype Limit = Unlimited | First(count: nat)

  /** `sample_limit` of a pass: a limit below one is refused. */
  function Pending(samples: seq<Hash>, held: Held, rateOf: Hash -> Rate, limit: Limit): seq<Hash> {
    var missing := Missing(samples, held, rateOf);
    if limit.First? && limit.count < |missing| then missing[..limit.count] else missing
  }

  lemma {:induction false} OnlyKeeps(keep: Hash -> bool, hashes: seq<Hash>)
    requires Distinct(hashes)
    ensures forall h :: h in Filter(keep, hashes) <==> h in hashes && keep(h)
    ensures Distinct(Filter(keep, hashes))
  {
    if hashes != [] {
      assert forall i, j :: 0 <= i < j < |hashes[1..]| ==>
        hashes[1..][i] == hashes[i + 1] && hashes[1..][j] == hashes[j + 1];
      OnlyKeeps(keep, hashes[1..]);
      assert forall h :: h in hashes <==> h == hashes[0] || h in hashes[1..];
      assert hashes[0] !in hashes[1..];
    }
  }

  ghost predicate Ascends(hashes: seq<Hash>) {
    forall i, j :: 0 <= i < j < |hashes| ==> hashes[i] < hashes[j]
  }

  lemma {:induction false} FilterKeepsOrder(keep: Hash -> bool, hashes: seq<Hash>)
    requires Ascends(hashes)
    ensures Ascends(Filter(keep, hashes)) && forall h :: h in Filter(keep, hashes) <==> h in hashes && keep(h)
  {
    if hashes != [] {
      assert Ascends(hashes[1..]);
      FilterKeepsOrder(keep, hashes[1..]);
      var rest := Filter(keep, hashes[1..]);
      assert forall h :: h in hashes <==> h == hashes[0] || h in hashes[1..];
      assert forall h :: h in hashes[1..] ==> hashes[0] < h;
      FirstIsLeast(hashes[0], rest);
    }
  }

  lemma FirstIsLeast(first: Hash, rest: seq<Hash>)
    requires Ascends(rest) && forall h :: h in rest ==> first < h
    ensures Ascends([first] + rest)
  {
    forall i, j | 0 <= i < j < |[first] + rest|
      ensures ([first] + rest)[i] < ([first] + rest)[j]
    {
      assert rest[j - 1] in rest;
    }
  }

  /** Of samples in hash order, the pending ones are those without a vector, or with one heard at another rate, in that
      order; a limit keeps as many of the first as it counts, and leaves out only later ones. */
  lemma PendingAreTheFirst(samples: seq<Hash>, held: Held, rateOf: Hash -> Rate, limit: Limit)
    requires Ascends(samples)
    ensures var pending := Pending(samples, held, rateOf, limit);
      && Ascends(pending) && (limit.First? ==> |pending| <= limit.count)
      && (forall h :: h in pending ==> h in samples && (h in held ==> held[h] != rateOf(h)))
      && forall h :: h in samples && (h in held ==> held[h] != rateOf(h)) && h !in pending ==>
        limit.First? && |pending| == limit.count && forall g :: g in pending ==> g < h
  {
    FilterKeepsOrder((h: Hash) => IsPending(held, rateOf, h), samples);
    var missing := Missing(samples, held, rateOf);
    assert forall h :: h in missing <==> h in samples && (h in held ==> held[h] != rateOf(h));
    hide Missing, Ascends;
    if limit.First? && limit.count < |missing| {
      TheFirstComeFirst(missing, limit.count);
    }
  }

  lemma TheFirstComeFirst(missing: seq<Hash>, count: nat)
    requires Ascends(missing) && count <= |missing|
    ensures Ascends(missing[..count]) && forall h :: h in missing[..count] ==> h in missing
    ensures forall h, g :: h in missing && h !in missing[..count] && g in missing[..count] ==> g < h
  {
    assert forall i :: 0 <= i < count ==> missing[i] in missing[..count];
    forall h, g | h in missing && h !in missing[..count] && g in missing[..count]
      ensures g < h
    {
      var at :| 0 <= at < |missing| && missing[at] == h;
      var first :| 0 <= first < count && missing[first] == g;
    }
  }

  /** Every sample described anew, its old vector replaced. */
  function Described(held: Held, hashes: seq<Hash>, rateOf: Hash -> Rate): Held {
    if hashes == [] then held
    else
      var last := hashes[|hashes| - 1];
      Described(held, hashes[..|hashes| - 1], rateOf)[last := rateOf(last)]
  }

  lemma {:induction false} DescribedHolds(held: Held, hashes: seq<Hash>, rateOf: Hash -> Rate, h: Hash)
    ensures h in Described(held, hashes, rateOf) <==> h in held || h in hashes
    ensures h in hashes ==> Described(held, hashes, rateOf)[h] == rateOf(h)
    ensures h in held && h !in hashes ==> Described(held, hashes, rateOf)[h] == held[h]
  {
    if hashes != [] {
      var last := |hashes| - 1;
      DescribedHolds(held, hashes[..last], rateOf, h);
      assert hashes == hashes[..last] + [hashes[last]];
    }
  }

  lemma {:induction false} DescribedInTurn(held: Held, one: seq<Hash>, two: seq<Hash>, rateOf: Hash -> Rate)
    ensures Described(held, one + two, rateOf) == Described(Described(held, one, rateOf), two, rateOf)
  {
    if two == [] {
      assert one + two == one;
    } else {
      var last := |two| - 1;
      DescribedInTurn(held, one, two[..last], rateOf);
      assert (one + two)[..|one + two| - 1] == one + two[..last];
    }
  }
}

/** The checkpointed extraction (`_Extraction`, src/samplecloud/features.py). */
module FeatureExtraction {
  import opened Sorting
  import opened PendingSamples
  import opened Prefetch

  const EXTRACTION_CHECKPOINT_INTERVAL: nat := 500
  const READ_AHEAD_SAMPLES: nat := 64

  datatype Vector = Vector(hash: Hash, rate: Rate)

  /** The experiment's vectors, and the size of every commit made. Inserting a vector beside one held for the
      same sample breaks the table's key, and nothing of the batch is then committed. */
  class VectorTable {
    var held: Held
    ghost var commits: seq<nat>

    constructor (held: Held)
      ensures this.held == held && commits == []
    {
      this.held, commits := held, [];
    }

    /** One transaction: the deletions, the insertions, and the commit. */
    method Commit(deleted: set<Hash>, inserted: seq<Vector>) returns (broken: bool)
      modifies this
      ensures broken <==> exists k :: 0 <= k < |inserted| && BreaksTheKey(old(held) - deleted, inserted, k)
      ensures broken ==> held == old(held) && commits == old(commits)
      ensures !broken ==> held == Inserted(old(held) - deleted, inserted) && commits == old(commits) + [|inserted|]
    {
      var after := held - deleted;
      for k := 0 to |inserted|
        invariant after == Inserted(held - deleted, inserted[..k])
        invariant held == old(held) && commits == old(commits)
        invariant forall i :: 0 <= i < k ==> !BreaksTheKey(held - deleted, inserted, i)
      {
        InsertedKeys(held - deleted, inserted, k);
        if inserted[k].hash in after {
          assert BreaksTheKey(held - deleted, inserted, k);
          return true;
        }
        assert inserted[..k + 1][..k] == inserted[..k];
        after := after[inserted[k].hash := inserted[k].rate];
      }
      assert inserted[..|inserted|] == inserted;
      held := after;
      commits := commits + [|inserted|];
      broken := false;
    }
  }

  /** The k-th vector meets one of its sample already held, or inserted before it. */
  ghost predicate BreaksTheKey(held: Held, inserted: seq<Vector>, k: nat) {
    k < |inserted| && (inserted[k].hash in held || exists j :: 0 <= j < k && inserted[j].hash == inserted[k].hash)
  }

  lemma {:induction false} InsertedKeys(held: Held, inserted: seq<Vector>, k: nat)
    requires k <= |inserted|
    ensures forall h :: h in Inserted(held, inserted[..k]) <==>
      h in held || exists j :: 0 <= j < k && inserted[j].hash == h
  {
    if k > 0 {
      InsertedKeys(held, inserted, k - 1);
      assert inserted[..k][..k - 1] == inserted[..k - 1];
      assert inserted[k - 1].hash == inserted[..k][k - 1].hash;
    }
  }

  function Inserted(held: Held, vectors: seq<Vector>): Held {
    if vectors == [] then held
    else Inserted(held, vectors[..|vectors| - 1])[vectors[|vectors| - 1].hash := vectors[|vectors| - 1].rate]
  }

  function VectorsOf(hashes: seq<Hash>, rateOf: Hash -> Rate): (vectors: seq<Vector>)
    ensures |vectors| == |hashes|
  {
    seq(|hashes|, i requires 0 <= i < |hashes| => Vector(hashes[i], rateOf(hashes[i])))
  }

  lemma {:induction false} InsertingIsDescribing(held: Held, deleted: set<Hash>, hashes: seq<Hash>,
      rateOf: Hash -> Rate)
    requires forall h :: h in deleted ==> h in hashes
    ensures Inserted(held - deleted, VectorsOf(hashes, rateOf)) == Described(held, hashes, rateOf)
  {
    var inserted := Inserted(held - deleted, VectorsOf(hashes, rateOf));
    forall h
      ensures h in inserted <==> h in Described(held, hashes, rateOf)
      ensures h in inserted ==> inserted[h] == Described(held, hashes, rateOf)[h]
    {
      DescribedHolds(held, hashes, rateOf, h);
      InsertedHolds(held - deleted, hashes, rateOf, h);
    }
  }

  lemma {:induction false} InsertedHolds(held: Held, hashes: seq<Hash>, rateOf: Hash -> Rate, h: Hash)
    ensures h in Inserted(held, VectorsOf(hashes, rateOf)) <==> h in held || h in hashes
    ensures h in hashes ==> Inserted(held, VectorsOf(hashes, rateOf))[h] == rateOf(h)
    ensures h in held && h !in hashes ==> Inserted(held, VectorsOf(hashes, rateOf))[h] == held[h]
  {
    if hashes != [] {
      var last := |hashes| - 1;
      InsertedHolds(held, hashes[..last], rateOf, h);
      assert VectorsOf(hashes, rateOf)[..last] == VectorsOf(hashes[..last], rateOf);
      assert hashes == hashes[..last] + [hashes[last]];
    }
  }

  /** How many of `n` samples described are committed before the pass ends: whole checkpoints of them. */
  function Committed(n: nat): nat {
    n / EXTRACTION_CHECKPOINT_INTERVAL * EXTRACTION_CHECKPOINT_INTERVAL
  }

  ghost predicate WholeCheckpoints(sizes: seq<nat>) {
    forall k :: 0 <= k < |sizes| ==> sizes[k] == EXTRACTION_CHECKPOINT_INTERVAL
  }

  /** Every commit made since, of those after `before`, is a whole checkpoint. */
  ghost predicate GrewByCheckpoints(before: seq<nat>, after: seq<nat>) {
    |before| <= |after| && after[..|before|] == before && WholeCheckpoints(after[|before|..])
  }

  /** The same, then one last commit short of a checkpoint. */
  ghost predicate EndedByCheckpoints(before: seq<nat>, after: seq<nat>) {
    after != [] && GrewByCheckpoints(before, after[..|after| - 1])
      && after[|after| - 1] < EXTRACTION_CHECKPOINT_INTERVAL
  }

  lemma CommittedOfOneMore(n: nat)
    ensures n - Committed(n) < EXTRACTION_CHECKPOINT_INTERVAL && Committed(n) <= n
    ensures Committed(n + 1) == if n + 1 - Committed(n) == EXTRACTION_CHECKPOINT_INTERVAL then n + 1 else Committed(n)
  {
  }

  lemma VectorsOfMore(one: seq<Hash>, two: seq<Hash>, rateOf: Hash -> Rate)
    ensures VectorsOf(one + two, rateOf) == VectorsOf(one, rateOf) + VectorsOf(two, rateOf)
  {
  }

  /** How many of `n` samples gathered are described: in every checkpoint, whole batches of them, the last one ending
      with the checkpoint. A batch size of zero is one sample at a time. */
  function WholeBatches(n: nat, batchSize: nat): (described: nat)
    ensures described <= n
  {
    var size := if batchSize == 0 then 1 else batchSize;
    CommittedOfOneMore(n);
    WholeOnes(n - Committed(n), size);
    Committed(n) + (n - Committed(n)) / size * size
  }

  lemma WholeOnes(r: nat, size: nat)
    requires size > 0
    ensures r == r / size * size + r % size && 0 <= r / size * size
    ensures (r + 1) / size * size == if r % size + 1 == size then r + 1 else r / size * size
  {
    var q := r / size;
    assert r == q * size + r % size;
    if r % size + 1 == size {
      assert r + 1 == (q + 1) * size;
      QuotientIs(r + 1, q + 1, 0, size);
    } else {
      QuotientIs(r + 1, q, r % size + 1, size);
    }
  }

  lemma QuotientIs(x: nat, q: nat, rest: nat, size: nat)
    requires rest < size && x == q * size + rest
    ensures x / size == q
  {
    var d, left := x / size, x % size;
    assert x == d * size + left;
    if d != q {
      var apart := if d < q then q - d else d - q;
      assert apart * size == if d < q then left - rest else rest - left by {
        Distributes(q, d, size);
        Distributes(d, q, size);
      }
      AtLeastOnce(apart, size);
    }
  }

  lemma Distributes(x: int, y: int, size: nat)
    ensures (x - y) * size == x * size - y * size
  {
  }

  lemma AtLeastOnce(times: nat, size: nat)
    requires times > 0
    ensures times * size >= size
  {
  }

  /** A sample more is described when it fills its batch, or the checkpoint. */
  lemma BatchesOfOneMore(n: nat, batchSize: nat)
    ensures var described := WholeBatches(n, batchSize);
      && Committed(n) <= described
      && WholeBatches(n + 1, batchSize) ==
        if n + 1 - described >= Min(batchSize, EXTRACTION_CHECKPOINT_INTERVAL - (described - Committed(n)))
        then n + 1 else described
  {
    var size := if batchSize == 0 then 1 else batchSize;
    CommittedOfOneMore(n);
    WholeOnes(n - Committed(n), size);
    if n + 1 - Committed(n) == EXTRACTION_CHECKPOINT_INTERVAL {
      assert 0 / size * size == 0;
    }
  }

  /** What a pass is given: the rates the library plays samples at, which batches the extractor answers, which
      checkpoints the database takes, and the batch size. */
  datatype Setting = Setting(rateOf: Hash -> Rate, describes: seq<Hash> -> bool, stores: seq<Vector> -> bool,
      batchSize: nat)

  /** Every batch filled by the first n samples gathered was answered, and every checkpoint they filled was taken. */
  ghost predicate WentThrough(given: Setting, gathered: seq<Hash>, n: nat)
    requires n <= |gathered|
  {
    && (forall k :: 0 <= k < n ==> WholeBatches(k, given.batchSize) < WholeBatches(k + 1, given.batchSize) ==>
          given.describes(gathered[WholeBatches(k, given.batchSize)..WholeBatches(k + 1, given.batchSize)]))
    && forall k :: 0 <= k < n ==> Committed(k) < Committed(k + 1) ==>
        given.stores(VectorsOf(gathered[Committed(k)..Committed(k + 1)], given.rateOf))
  }

  /** The batch left over at the end was answered as well, and the last checkpoint taken, full or not. */
  ghost predicate AllWentThrough(given: Setting, gathered: seq<Hash>) {
    var n := |gathered|;
    CommittedOfOneMore(n);
    && WentThrough(given, gathered, n)
    && (WholeBatches(n, given.batchSize) < n ==> given.describes(gathered[WholeBatches(n, given.batchSize)..]))
    && given.stores(VectorsOf(gathered[Committed(n)..], given.rateOf))
  }

  /** The first batch not answered, or the first checkpoint not taken, ends a pass: what the first n samples filled was,
      and this was not. */
  ghost predicate Fails(given: Setting, progress: Progress, gathered: seq<Hash>, n: nat, described: nat)
    requires n <= |gathered|
  {
    CommittedOfOneMore(n);
    var whole := WholeBatches(n, given.batchSize);
    && WentThrough(given, gathered, n)
    && match progress
       case Going => false
       case DescribingRaised => described == whole < |gathered| && !given.describes(gathered[whole..])
       case StoringRaised =>
         && described == |gathered| && (whole < |gathered| ==> given.describes(gathered[whole..]))
         && !given.stores(VectorsOf(gathered[Committed(n)..], given.rateOf))
  }

  lemma StillThrough(given: Setting, gathered: seq<Hash>, sample: Hash)
    requires WentThrough(given, gathered, |gathered|)
    ensures WentThrough(given, gathered + [sample], |gathered|)
  {
    var n, more := |gathered|, gathered + [sample];
    forall k | 0 <= k < n && WholeBatches(k, given.batchSize) < WholeBatches(k + 1, given.batchSize)
      ensures given.describes(more[WholeBatches(k, given.batchSize)..WholeBatches(k + 1, given.batchSize)])
    {
      assert more[WholeBatches(k, given.batchSize)..WholeBatches(k + 1, given.batchSize)]
          == gathered[WholeBatches(k, given.batchSize)..WholeBatches(k + 1, given.batchSize)];
    }
    forall k | 0 <= k < n && Committed(k) < Committed(k + 1)
      ensures given.stores(VectorsOf(more[Committed(k)..Committed(k + 1)], given.rateOf))
    {
      CommittedOfOneMore(k + 1);
      assert more[Committed(k)..Committed(k + 1)] == gathered[Committed(k)..Committed(k + 1)];
    }
  }

  lemma OneMoreThrough(given: Setting, gathered: seq<Hash>, n: nat)
    requires n < |gathered| && WentThrough(given, gathered, n) && Committed(n) <= Committed(n + 1) <= |gathered|
    requires WholeBatches(n, given.batchSize) < WholeBatches(n + 1, given.batchSize) ==>
      given.describes(gathered[WholeBatches(n, given.batchSize)..WholeBatches(n + 1, given.batchSize)])
    requires Committed(n) < Committed(n + 1) ==>
      given.stores(VectorsOf(gathered[Committed(n)..Committed(n + 1)], given.rateOf))
    ensures WentThrough(given, gathered, n + 1)
  {
    hide WholeBatches, Committed;
  }

  /** What taking a sample or finishing comes to: on it goes, or the extractor raises, or the transaction does. */
  datatype Progress = Going | DescribingRaised | StoringRaised

  /** A pass between its reader and its table: samples gathered for the extractor wait in the batch, described ones in
      the checkpoint for their commit. Which batches the extractor answers, and which checkpoints the database takes, is
      given. */
  class Extraction {
    const table: VectorTable
    const rateOf: Hash -> Rate
    const describes: seq<Hash> -> bool
    const stores: seq<Vector> -> bool
    const moved: set<Hash>
    const batchSize: nat
    var batch: seq<Hash>
    var checkpoint: seq<Vector>
    var newlyExtracted: nat
    var unavailable: nat
    // What the experiment held as the pass began, and the samples gathered since, in order.
    ghost const start: Held
    ghost const earlier: seq<nat>
    ghost var gathered: seq<Hash>

    /** What the pass has committed, holds described, and holds gathered make up every sample it took. */
    ghost predicate Holds(stored: nat)
      reads `batch, `checkpoint, `newlyExtracted, `gathered, table
    {
      && stored <= |gathered| && |gathered| == stored + |checkpoint| + |batch|
      && checkpoint == VectorsOf(gathered[stored..stored + |checkpoint|], rateOf)
      && batch == gathered[stored + |checkpoint|..]
      && newlyExtracted == stored + |checkpoint|
      && table.held == Described(start, gathered[..stored], rateOf)
      && Distinct(gathered) && moved == Moved(start, rateOf)
      && (forall h :: h in gathered ==> IsPending(start, rateOf, h))
    }

    ghost predicate OnlyWholeCheckpoints()
      reads table
    {
      GrewByCheckpoints(earlier, table.commits)
    }

    ghost function Given(): Setting {
      Setting(rateOf, describes, stores, batchSize)
    }

    /** Between samples, all but less than one checkpoint of what was gathered is committed, every commit a whole
        checkpoint, and all but less than one batch is described. */
    ghost predicate Valid()
      reads `batch, `checkpoint, `newlyExtracted, `gathered, table
    {
      && Holds(Committed(|gathered|)) && OnlyWholeCheckpoints()
      && newlyExtracted == WholeBatches(|gathered|, batchSize) && WentThrough(Given(), gathered, |gathered|)
    }

    /** Where an error leaves a pass whose first `n` samples went through: what they filled is committed. */
    ghost predicate StoppedIn(progress: Progress, n: nat)
      reads `batch, `checkpoint, `newlyExtracted, `gathered, table
    {
      && n <= |gathered| && Holds(Committed(n)) && OnlyWholeCheckpoints()
      && Fails(Given(), progress, gathered, n, newlyExtracted)
    }

    lemma HeldOnTheWay()
      requires Valid()
      ensures Committed(|gathered|) <= |gathered|
      ensures table.held == Described(start, gathered[..Committed(|gathered|)], rateOf)
      ensures newlyExtracted == WholeBatches(|gathered|, batchSize) && WentThrough(Given(), gathered, |gathered|)
      ensures GrewByCheckpoints(earlier, table.commits)
    {
    }

    lemma HeldWhereStopped(progress: Progress, n: nat)
      requires StoppedIn(progress, n)
      ensures Committed(n) <= |gathered| && table.held == Described(start, gathered[..Committed(n)], rateOf)
      ensures Fails(Given(), progress, gathered, n, newlyExtracted) && GrewByCheckpoints(earlier, table.commits)
    {
    }

    constructor (table: VectorTable, rateOf: Hash -> Rate, describes: seq<Hash> -> bool, stores: seq<Vector> -> bool,
                 moved: set<Hash>, batchSize: nat)
      requires moved == Moved(table.held, rateOf)
      ensures Valid() && gathered == [] && start == table.held && earlier == table.commits
      ensures newlyExtracted == unavailable == 0
      ensures this.table == table && this.rateOf == rateOf && this.batchSize == batchSize
      ensures this.describes == describes && this.stores == stores
    {
      this.table, this.rateOf, this.moved, this.batchSize := table, rateOf, moved, batchSize;
      this.describes, this.stores := describes, stores;
      batch, checkpoint, newlyExtracted, unavailable := [], [], 0, 0;
      start, earlier, gathered := table.held, table.commits, [];
    }

    lemma Room()
      requires Valid()
      ensures var stored := Committed(|gathered|);
        && Holds(stored) && OnlyWholeCheckpoints()
        && |gathered| == stored + |checkpoint| + |batch| && |gathered| - stored < EXTRACTION_CHECKPOINT_INTERVAL
        && newlyExtracted == stored + |checkpoint| == WholeBatches(|gathered|, batchSize)
        && WentThrough(Given(), gathered, |gathered|) && Given().batchSize == batchSize
    {
      CommittedOfOneMore(|gathered|);
    }

    // The sample that filled nothing, and the one that filled its batch, or its checkpoint as well.
    lemma BetweenSamples(n: nat)
      requires |gathered| == n + 1 && OnlyWholeCheckpoints() && WentThrough(Given(), gathered, n)
      requires Holds(if n + 1 - Committed(n) == EXTRACTION_CHECKPOINT_INTERVAL then n + 1 else Committed(n))
      requires newlyExtracted == WholeBatches(n + 1, batchSize)
      requires newlyExtracted == n + 1 || newlyExtracted == WholeBatches(n, batchSize)
      requires WholeBatches(n, batchSize) < newlyExtracted ==>
        Given().describes(gathered[WholeBatches(n, batchSize)..])
      requires n + 1 - Committed(n) == EXTRACTION_CHECKPOINT_INTERVAL ==>
        Given().stores(VectorsOf(gathered[Committed(n)..], rateOf))
      ensures Valid()
    {
      CommittedOfOneMore(n);
      hide WholeBatches, Committed, WentThrough;
      assert gathered[WholeBatches(n, batchSize)..n + 1] == gathered[WholeBatches(n, batchSize)..];
      assert gathered[Committed(n)..n + 1] == gathered[Committed(n)..];
      OneMoreThrough(Given(), gathered, n);
    }

    method Join(sample: Hash, ghost stored: nat)
      requires Holds(stored) && sample !in gathered && IsPending(start, rateOf, sample)
      modifies `batch, `gathered
      ensures gathered == old(gathered) + [sample] && batch == old(batch) + [sample]
      ensures Holds(stored) && |checkpoint| + |batch| == |gathered| - stored
    {
      hide Described, VectorsOf, Moved, IsPending, Distinct;
      batch, gathered := batch + [sample], gathered + [sample];
      GatheringOneMore(old(gathered), sample, stored, |checkpoint|, rateOf);
    }

    /** A sample no file holds is counted; one heard joins the batch, which goes to the extractor at its size, or sooner
        where the checkpoint has no room for more. */
    method Take(sample: Hash, heard: bool) returns (progress: Progress)
      requires Valid() && sample !in gathered && IsPending(start, rateOf, sample)
      modifies this, table
      ensures gathered == old(gathered) + if heard then [sample] else []
      ensures unavailable == old(unavailable) + if heard then 0 else 1
      ensures progress.Going? ==> Valid()
      ensures !progress.Going? ==> heard && StoppedIn(progress, |gathered| - 1)
      ensures progress.DescribingRaised? ==> WholeBatches(|gathered|, batchSize) == |gathered|
      ensures progress.StoringRaised? ==> |gathered| == Committed(|gathered| - 1) + EXTRACTION_CHECKPOINT_INTERVAL
    {
      hide *;
      if !heard {
        unavailable := unavailable + 1;
        return Going;
      }
      ghost var n, stored, before := |gathered|, Committed(|gathered|), gathered;
      Room();
      Join(sample, stored);
      StillThrough(Given(), before, sample);
      BatchesOfOneMore(n, batchSize);
      var room := EXTRACTION_CHECKPOINT_INTERVAL - |checkpoint|;
      progress := Going;
      if |batch| >= Min(batchSize, room) {
        progress := DescribeBatch(n);
      }
      if progress.Going? {
        BetweenSamples(n);
      }
    }

    /** The batch left over goes to the extractor, and what is described by then is committed, full or not. */
    method Finish() returns (progress: Progress)
      requires Valid()
      modifies this, table
      ensures gathered == old(gathered) && unavailable == old(unavailable)
      ensures progress.Going? ==> Holds(|gathered|) && newlyExtracted == |gathered| && AllWentThrough(Given(), gathered)
      ensures progress.Going? ==> EndedByCheckpoints(earlier, table.commits)
      ensures !progress.Going? ==> StoppedIn(progress, |gathered|)
    {
      hide Described, WentThrough, Committed, WholeBatches, Moved, IsPending, Distinct, GrewByCheckpoints,
        EndedByCheckpoints, VectorsOf, BreaksTheKey, Inserted;
      ghost var n := |gathered|;
      Room();
      progress := Going;
      if batch != [] {
        progress := DescribeBatch(n);
      }
      if progress.Going? {
        ghost var before := table.commits;
        progress := Store(Committed(n));
        if progress.Going? {
          EndedWithOne(earlier, before, n - Committed(n));
        }
      }
    }

    /** The batch goes to the extractor, and a checkpoint it fills is committed. The first `n` samples gathered went
        through before. */
    method DescribeBatch(ghost n: nat) returns (progress: Progress)
      requires n <= |gathered| && WentThrough(Given(), gathered, n)
      requires Holds(Committed(n)) && OnlyWholeCheckpoints() && batch != []
      requires newlyExtracted == WholeBatches(n, batchSize)
      requires |checkpoint| + |batch| <= EXTRACTION_CHECKPOINT_INTERVAL
      requires |checkpoint| + |batch| == EXTRACTION_CHECKPOINT_INTERVAL ==> |gathered| == n + 1
      modifies this, table
      ensures gathered == old(gathered) && unavailable == old(unavailable)
      ensures progress.Going? ==> OnlyWholeCheckpoints() && batch == [] && newlyExtracted == |gathered|
      ensures progress.Going? ==> Given().describes(gathered[WholeBatches(n, batchSize)..])
      ensures progress.Going? ==> if |gathered| - Committed(n) == EXTRACTION_CHECKPOINT_INTERVAL
        then Holds(|gathered|) && Given().stores(VectorsOf(gathered[Committed(n)..], rateOf))
          && table.commits == old(table.commits) + [EXTRACTION_CHECKPOINT_INTERVAL]
        else Holds(Committed(n)) && table.commits == old(table.commits)
      ensures !progress.Going? ==> StoppedIn(progress, n) && table.commits == old(table.commits)
      ensures progress.StoringRaised? ==> |gathered| - Committed(n) == EXTRACTION_CHECKPOINT_INTERVAL
    {
      hide Described, WentThrough, Committed, WholeBatches, Moved, IsPending, Distinct, GrewByCheckpoints, VectorsOf;
      ghost var stored := Committed(n);
      CommittedOfOneMore(n);
      assert batch == gathered[newlyExtracted..] && Given().describes(batch) == describes(batch);
      if !describes(batch) {
        return DescribingRaised;
      }
      VectorsOfMore(gathered[stored..stored + |checkpoint|], batch, rateOf);
      assert gathered[stored..stored + |checkpoint|] + batch == gathered[stored..];
      checkpoint := checkpoint + VectorsOf(batch, rateOf);
      newlyExtracted := newlyExtracted + |batch|;
      batch := [];
      assert gathered[stored..stored + |checkpoint|] == gathered[stored..];
      assert gathered[stored + |checkpoint|..] == [];
      progress := Going;
      if |checkpoint| >= EXTRACTION_CHECKPOINT_INTERVAL {
        progress := Store(stored);
        if progress.Going? {
          GrewByOne(earlier, old(table.commits));
        }
      }
    }

    method Store(ghost stored: nat) returns (progress: Progress)
      requires Holds(stored) && batch == []
      modifies this, table
      ensures gathered == old(gathered) && batch == [] && unavailable == old(unavailable)
      ensures newlyExtracted == old(newlyExtracted)
      ensures progress.Going? ==>
        && Given().stores(VectorsOf(gathered[stored..], rateOf)) && Holds(|gathered|) && checkpoint == []
        && table.commits == old(table.commits) + [old(|checkpoint|)]
      ensures !progress.Going? ==>
        && progress.StoringRaised? && !Given().stores(VectorsOf(gathered[stored..], rateOf))
        && Holds(stored) && checkpoint == old(checkpoint) && table.commits == old(table.commits)
    {
      hide Moved, IsPending, Inserted, BreaksTheKey, Distinct, GrewByCheckpoints, StoppedIn, Described, VectorsOf;
      assert gathered[stored..stored + |checkpoint|] == gathered[stored..];
      if !stores(checkpoint) {
        return StoringRaised;
      }
      var deleted := set v | v in checkpoint && v.hash in moved :: v.hash;
      StoringDescribes(start, gathered, stored, rateOf, checkpoint, deleted);
      var broken := table.Commit(deleted, checkpoint);
      checkpoint := [];
      progress := Going;
      NothingGatheredIsLeft(gathered, rateOf);
    }
  }

  lemma GrewByOne(before: seq<nat>, after: seq<nat>)
    requires GrewByCheckpoints(before, after)
    ensures GrewByCheckpoints(before, after + [EXTRACTION_CHECKPOINT_INTERVAL])
  {
    assert (after + [EXTRACTION_CHECKPOINT_INTERVAL])[..|before|] == after[..|before|];
  }

  lemma EndedWithOne(before: seq<nat>, after: seq<nat>, last: nat)
    requires GrewByCheckpoints(before, after) && last < EXTRACTION_CHECKPOINT_INTERVAL
    ensures EndedByCheckpoints(before, after + [last])
  {
    assert (after + [last])[..|after|] == after;
  }

  lemma GatheringOneMore(gathered: seq<Hash>, sample: Hash, stored: nat, described: nat, rateOf: Hash -> Rate)
    requires stored + described <= |gathered| && Distinct(gathered) && sample !in gathered
    ensures Distinct(gathered + [sample])
    ensures (gathered + [sample])[..stored] == gathered[..stored]
    ensures (gathered + [sample])[stored..stored + described] == gathered[stored..stored + described]
    ensures (gathered + [sample])[stored + described..] == gathered[stored + described..] + [sample]
  {
  }

  // A sample is held already only if it moved, and a moved sample's old vector is among the deletions.
  lemma StoringBreaksNoKey(
    start: Held, gathered: seq<Hash>, stored: nat, rateOf: Hash -> Rate, checkpoint: seq<Vector>, deleted: set<Hash>)
    requires stored <= |gathered| && Distinct(gathered) && forall h :: h in gathered ==> IsPending(start, rateOf, h)
    requires checkpoint == VectorsOf(gathered[stored..], rateOf)
    requires deleted == set v | v in checkpoint && v.hash in Moved(start, rateOf) :: v.hash
    ensures forall k :: 0 <= k < |checkpoint| ==>
      !BreaksTheKey(Described(start, gathered[..stored], rateOf) - deleted, checkpoint, k)
    ensures forall h :: h in deleted ==> h in gathered[stored..]
  {
    forall k | 0 <= k < |checkpoint|
      ensures !BreaksTheKey(Described(start, gathered[..stored], rateOf) - deleted, checkpoint, k)
    {
      var h := gathered[stored + k];
      assert checkpoint[k] == Vector(h, rateOf(h)) && checkpoint[k] in checkpoint;
      DescribedHolds(start, gathered[..stored], rateOf, h);
      assert h !in gathered[..stored];
      assert h in gathered && IsPending(start, rateOf, h);
      assert h in start ==> checkpoint[k].hash in Moved(start, rateOf);
      forall j | 0 <= j < k
        ensures checkpoint[j].hash != h
      {
        assert checkpoint[j].hash == gathered[stored + j];
      }
    }
  }

  lemma StoringDescribes(
    start: Held, gathered: seq<Hash>, stored: nat, rateOf: Hash -> Rate, checkpoint: seq<Vector>, deleted: set<Hash>)
    requires stored <= |gathered| && Distinct(gathered) && forall h :: h in gathered ==> IsPending(start, rateOf, h)
    requires checkpoint == VectorsOf(gathered[stored..], rateOf)
    requires deleted == set v | v in checkpoint && v.hash in Moved(start, rateOf) :: v.hash
    ensures var held := Described(start, gathered[..stored], rateOf) - deleted;
      && (forall k :: 0 <= k < |checkpoint| ==> !BreaksTheKey(held, checkpoint, k))
      && Inserted(held, checkpoint) == Described(start, gathered, rateOf)
  {
    hide *;
    StoringBreaksNoKey(start, gathered, stored, rateOf, checkpoint, deleted);
    InsertingIsDescribing(Described(start, gathered[..stored], rateOf), deleted, gathered[stored..], rateOf);
    DescribedInTurn(start, gathered[..stored], gathered[stored..], rateOf);
    assert gathered[..stored] + gathered[stored..] == gathered;
  }

  lemma NothingGatheredIsLeft(gathered: seq<Hash>, rateOf: Hash -> Rate)
    ensures gathered[..|gathered|] == gathered && gathered[|gathered|..] == []
    ensures VectorsOf(gathered[|gathered|..|gathered|], rateOf) == []
  {
  }
}

/** Whole extraction passes, one after another, each stopped at any point. */
module ExtractionPasses {
  import opened Options
  import opened Sorting
  import opened PendingSamples
  import opened Prefetch
  import opened FeatureExtraction

  /** How reading a sample goes: its frames heard, no file holding it now, or an error that ends the pass. */
  type Hears = Hash -> Work<bool>

  predicate IsHeard(hears: Hears, h: Hash) {
    hears(h) == Answered(true)
  }

  function Heard(hears: Hears, hashes: seq<Hash>): seq<Hash> {
    if hashes == [] then []
    else
      var last := |hashes| - 1;
      Heard(hears, hashes[..last]) + if IsHeard(hears, hashes[last]) then [hashes[last]] else []
  }

  /** Where a pass ends: stopped between samples with so many taken; stopped while it takes the last of those, before
      the commit that sample may bring; or run to its end. */
  datatype Stop = After(taken: nat) | Inside(taken: nat) | AtTheEnd

  /** How many of the heard samples a stopped pass has committed: whole checkpoints of them, the one being filled left
      out. */
  function CommittedBy(hears: Hears, pending: seq<Hash>, stop: Stop): (committed: nat)
    requires !stop.AtTheEnd? && stop.taken <= |pending|
    ensures committed <= |Heard(hears, pending[..stop.taken])|
  {
    var n := |Heard(hears, pending[..stop.taken])|;
    var before := if stop.Inside? && TakesHeard(hears, pending, stop.taken) && n > 0 then n - 1 else n;
    CommittedOfOneMore(before);
    Committed(before)
  }

  // Whether the last of the samples taken is heard.
  predicate TakesHeard(hears: Hears, pending: seq<Hash>, taken: nat)
    requires taken <= |pending|
  {
    taken > 0 && IsHeard(hears, pending[taken - 1])
  }

  /** What the experiment holds of a pass stopped there. */
  function StoppedAt(held: Held, pending: seq<Hash>, rateOf: Hash -> Rate, hears: Hears, stop: Stop): Held
    requires !stop.AtTheEnd? && stop.taken <= |pending|
  {
    Described(held, Heard(hears, pending[..stop.taken])[..CommittedBy(hears, pending, stop)], rateOf)
  }

  function Finished(held: Held, pending: seq<Hash>, rateOf: Hash -> Rate, hears: Hears): Held {
    Described(held, Heard(hears, pending), rateOf)
  }

  lemma {:induction false} HeardAreAmong(hears: Hears, hashes: seq<Hash>)
    ensures forall h :: h in Heard(hears, hashes) <==> h in hashes && IsHeard(hears, h)
    ensures |Heard(hears, hashes)| <= |hashes|
  {
    if hashes != [] {
      var last := |hashes| - 1;
      HeardAreAmong(hears, hashes[..last]);
      assert hashes == hashes[..last] + [hashes[last]];
    }
  }

  ghost predicate NoneRaised(hears: Hears, hashes: seq<Hash>) {
    forall h :: h in hashes ==> !hears(h).Raised?
  }

  lemma NoneRaisedYet(hears: Hears, pending: seq<Hash>, k: nat)
    requires k < |pending| && NoneRaised(hears, pending[..k])
    ensures NoneRaised(hears, pending[..k + 1]) <==> !hears(pending[k]).Raised?
    ensures hears(pending[k]).Raised? ==> !NoneRaised(hears, pending)
  {
    assert pending[..k + 1] == pending[..k] + [pending[k]];
  }

  lemma HeardMeansAnswered(hears: Hears, h: Hash, heard: bool)
    requires hears(h) == Answered(heard)
    ensures IsHeard(hears, h) == heard
  {
  }

  lemma HeardOfOneMore(hears: Hears, pending: seq<Hash>, k: nat)
    requires k < |pending| && Distinct(pending)
    ensures Heard(hears, pending[..k + 1]) == Heard(hears, pending[..k]) + if IsHeard(hears, pending[k])
      then [pending[k]] else []
    ensures pending[k] !in Heard(hears, pending[..k])
  {
    assert pending[..k + 1][..k] == pending[..k];
    HeardAreAmong(hears, pending[..k]);
  }

  /** What raised the error a pass stopped at. */
  datatype Cause = Reading | Describing | Storing

  datatype Summary =
    | Complete(newlyExtracted: nat, unavailable: nat)
    | Stopped(cause: Cause, stop: Stop, described: nat)

  /** Why and with what a pass stopped. Everything before went through: the readings, every batch the samples heard
      filled, and every checkpoint. What stopped it was the next reading, which raised; or the batch waiting, not
      answered; or the checkpoint described, not taken. */
  ghost predicate StopHolds(pending: seq<Hash>, given: Setting, hears: Hears, cause: Cause, stop: Stop,
      described: nat)
  {
    && !stop.AtTheEnd? && stop.taken <= |pending| && NoneRaised(hears, pending[..stop.taken])
    && var heard := Heard(hears, pending[..stop.taken]);
    && (stop.Inside? ==> heard != [] && TakesHeard(hears, pending, stop.taken))
    && (stop.After? && !cause.Reading? ==> stop.taken == |pending|)
    && var through := if stop.Inside? then |heard| - 1 else |heard|;
    && match cause
       case Reading =>
         && stop.After? && stop.taken < |pending| && hears(pending[stop.taken]).Raised?
         && WentThrough(given, heard, |heard|) && described == WholeBatches(|heard|, given.batchSize)
       case Describing =>
         && Fails(given, DescribingRaised, heard, through, described)
         && (stop.Inside? ==> WholeBatches(|heard|, given.batchSize) == |heard|)
       case Storing =>
         && Fails(given, StoringRaised, heard, through, described)
         && (stop.Inside? ==> |heard| % EXTRACTION_CHECKPOINT_INTERVAL == 0)
  }

  /** Of what a stopped pass described, less than a checkpoint is lost, but for a full one at its commit. */
  lemma StopsLoseLittle(pending: seq<Hash>, given: Setting, hears: Hears, cause: Cause, stop: Stop, described: nat)
    requires StopHolds(pending, given, hears, cause, stop, described)
    ensures var heard, committed := Heard(hears, pending[..stop.taken]), CommittedBy(hears, pending, stop);
      && committed <= described <= |heard| && described - committed <= EXTRACTION_CHECKPOINT_INTERVAL
      && (described - committed == EXTRACTION_CHECKPOINT_INTERVAL <==> cause.Storing? && stop.Inside?)
  {
    var heard := Heard(hears, pending[..stop.taken]);
    var through := if stop.Inside? then |heard| - 1 else |heard|;
    CommittedOfOneMore(through);
    BatchesOfOneMore(through, given.batchSize);
    hide Heard, WholeBatches, WentThrough;
  }

  /** What a pass leaves where it ends, of what it found: complete, every batch answered and every checkpoint taken; or
      stopped by the cause it names at the place it names. */
  ghost predicate Leaves(summary: Summary, pending: seq<Hash>, given: Setting, hears: Hears, start: Held, held: Held,
      earlier: seq<nat>, commits: seq<nat>) {
    match summary
    case Complete(newlyExtracted, unavailable) =>
      && NoneRaised(hears, pending) && AllWentThrough(given, Heard(hears, pending))
      && held == Finished(start, pending, given.rateOf, hears)
      && newlyExtracted == |Heard(hears, pending)| && newlyExtracted + unavailable == |pending|
      && EndedByCheckpoints(earlier, commits)
    case Stopped(cause, stop, described) =>
      && StopHolds(pending, given, hears, cause, stop, described)
      && held == StoppedAt(start, pending, given.rateOf, hears, stop)
      && GrewByCheckpoints(earlier, commits)
  }

  ghost predicate EndsWith(extraction: Extraction, summary: Summary, pending: seq<Hash>, hears: Hears)
    reads extraction.table
  {
    Leaves(summary, pending, extraction.Given(), hears, extraction.start, extraction.table.held, extraction.earlier,
      extraction.table.commits)
  }

  // One turn of the loop over the heard samples.
  method TakeNext(extraction: Extraction, sample: Hash, heard: bool, ghost pending: seq<Hash>, ghost hears: Hears,
      k: nat)
    returns (ended: Option<Summary>)
    requires extraction.Valid() && Distinct(pending) && k < |pending|
    requires sample == pending[k] && hears(sample) == Answered(heard)
      && IsPending(extraction.start, extraction.rateOf, sample)
    requires extraction.gathered == Heard(hears, pending[..k]) && NoneRaised(hears, pending[..k + 1])
    modifies extraction, extraction.table
    ensures ended.None? ==>
      && extraction.Valid() && extraction.gathered == Heard(hears, pending[..k + 1])
      && |extraction.gathered| + extraction.unavailable == old(|extraction.gathered| + extraction.unavailable) + 1
    ensures ended.Some? ==> EndsWith(extraction, ended.value, pending, hears)
  {
    HeardOfOneMore(hears, pending, k);
    HeardMeansAnswered(hears, sample, heard);
    TakenInside(hears, pending, k);
    hide *;
    var progress := extraction.Take(sample, heard);
    if progress.Going? {
      return None;
    }
    StoppedByItsCause(extraction, progress, pending, hears, Inside(k + 1));
    ended := Some(Stopped(CauseOf(progress), Inside(k + 1), extraction.newlyExtracted));
  }

  lemma TakenInside(hears: Hears, pending: seq<Hash>, k: nat)
    requires k < |pending|
    ensures TakesHeard(hears, pending, k + 1) == IsHeard(hears, pending[k])
  {
  }

  // The end of the loop, every pending sample taken.
  method FinishPass(extraction: Extraction, pending: seq<Hash>, ghost hears: Hears) returns (summary: Summary)
    requires extraction.Valid() && extraction.gathered == Heard(hears, pending) && NoneRaised(hears, pending)
    requires |extraction.gathered| + extraction.unavailable == |pending|
    modifies extraction, extraction.table
    ensures EndsWith(extraction, summary, pending, hears)
  {
    assert pending[..|pending|] == pending;
    hide *;
    var progress := extraction.Finish();
    if progress.Going? {
      CompleteHere(extraction, pending, hears);
      return Complete(extraction.newlyExtracted, extraction.unavailable);
    }
    StoppedByItsCause(extraction, progress, pending, hears, After(|pending|));
    summary := Stopped(CauseOf(progress), After(|pending|), extraction.newlyExtracted);
  }

  lemma CompleteHere(extraction: Extraction, pending: seq<Hash>, hears: Hears)
    requires extraction.gathered == Heard(hears, pending) && NoneRaised(hears, pending)
    requires |extraction.gathered| + extraction.unavailable == |pending|
    requires extraction.Holds(|extraction.gathered|) && extraction.newlyExtracted == |extraction.gathered|
    requires AllWentThrough(extraction.Given(), extraction.gathered)
    requires EndedByCheckpoints(extraction.earlier, extraction.table.commits)
    ensures EndsWith(extraction, Complete(extraction.newlyExtracted, extraction.unavailable), pending, hears)
  {
    hide NoneRaised, Heard, EndedByCheckpoints, Described, AllWentThrough;
    assert extraction.gathered[..|extraction.gathered|] == extraction.gathered;
  }

  lemma StoppedHere(extraction: Extraction, pending: seq<Hash>, hears: Hears, k: nat)
    requires extraction.Valid() && k < |pending| && extraction.gathered == Heard(hears, pending[..k])
    requires NoneRaised(hears, pending[..k]) && hears(pending[k]).Raised?
    ensures EndsWith(extraction, Stopped(Reading, After(k), extraction.newlyExtracted), pending, hears)
  {
    assert CommittedBy(hears, pending, After(k)) == Committed(|Heard(hears, pending[..k])|);
    hide Extraction.Valid, Described, Heard, Committed, CommittedBy, WholeBatches, WentThrough;
    extraction.HeldOnTheWay();
  }

  lemma StoppedByItsCause(extraction: Extraction, progress: Progress, pending: seq<Hash>, hears: Hears, stop: Stop)
    requires !progress.Going? && !stop.AtTheEnd? && stop.taken <= |pending| && NoneRaised(hears, pending[..stop.taken])
    requires extraction.gathered == Heard(hears, pending[..stop.taken]) && (stop.After? ==> stop.taken == |pending|)
    requires stop.Inside? ==> extraction.gathered != [] && TakesHeard(hears, pending, stop.taken)
    requires extraction.StoppedIn(progress, |extraction.gathered| - if stop.Inside? then 1 else 0)
    requires stop.Inside? && progress.DescribingRaised? ==>
      WholeBatches(|extraction.gathered|, extraction.batchSize) == |extraction.gathered|
    requires stop.Inside? && progress.StoringRaised? ==>
      |extraction.gathered| == Committed(|extraction.gathered| - 1) + EXTRACTION_CHECKPOINT_INTERVAL
    ensures EndsWith(extraction, Stopped(CauseOf(progress), stop, extraction.newlyExtracted), pending, hears)
  {
    hide Extraction.StoppedIn, Heard, Described, Committed, CommittedBy, WholeBatches, Fails, GrewByCheckpoints;
    hide TakesHeard, NoneRaised, StopHolds, CauseOf;
    var through := |extraction.gathered| - if stop.Inside? then 1 else 0;
    CommittedThrough(hears, pending, stop, through);
    extraction.HeldWhereStopped(progress, through);
    TheStopHolds(extraction.Given(), progress, pending, hears, stop, extraction.newlyExtracted);
  }

  lemma TheStopHolds(given: Setting, progress: Progress, pending: seq<Hash>, hears: Hears, stop: Stop, described: nat)
    requires !stop.AtTheEnd? && stop.taken <= |pending| && NoneRaised(hears, pending[..stop.taken])
    requires stop.After? ==> stop.taken == |pending|
    requires var heard := Heard(hears, pending[..stop.taken]);
      && (stop.Inside? ==> heard != [] && TakesHeard(hears, pending, stop.taken))
      && Fails(given, progress, heard, |heard| - if stop.Inside? then 1 else 0, described)
      && (stop.Inside? && progress.DescribingRaised? ==> WholeBatches(|heard|, given.batchSize) == |heard|)
      && (stop.Inside? && progress.StoringRaised? ==>
            |heard| == Committed(|heard| - 1) + EXTRACTION_CHECKPOINT_INTERVAL)
    ensures StopHolds(pending, given, hears, CauseOf(progress), stop, described)
  {
    var heard := Heard(hears, pending[..stop.taken]);
    assert !progress.Going?;
    hide Fails, Heard, TakesHeard, NoneRaised, WholeBatches, WentThrough;
    if stop.Inside? && progress.StoringRaised? {
      FillsItsCheckpoint(|heard|);
    }
  }

  lemma CommittedThrough(hears: Hears, pending: seq<Hash>, stop: Stop, through: nat)
    requires !stop.AtTheEnd? && stop.taken <= |pending|
    requires stop.Inside? ==> TakesHeard(hears, pending, stop.taken)
    requires |Heard(hears, pending[..stop.taken])| == through + if stop.Inside? then 1 else 0
    ensures CommittedBy(hears, pending, stop) == Committed(through)
  {
    hide Heard, TakesHeard;
  }

  lemma FillsItsCheckpoint(n: nat)
    requires n > 0 && n == Committed(n - 1) + EXTRACTION_CHECKPOINT_INTERVAL
    ensures n % EXTRACTION_CHECKPOINT_INTERVAL == 0
  {
  }

  function CauseOf(progress: Progress): Cause {
    if progress.DescribingRaised? then Describing else Storing
  }

  method ExtractFeatures(
    table: VectorTable, pending: seq<Hash>, moved: set<Hash>, rateOf: Hash -> Rate, hears: Hears,
    describes: seq<Hash> -> bool, stores: seq<Vector> -> bool, batchSize: nat)
    returns (summary: Summary)
    requires Distinct(pending) && moved == Moved(table.held, rateOf)
    requires forall h :: h in pending ==> IsPending(table.held, rateOf, h)
    modifies table
    ensures Leaves(summary, pending, Setting(rateOf, describes, stores, batchSize), hears, old(table.held), table.held,
      old(table.commits), table.commits)
  {
    hide *;
    var reader := new Prefetched(pending, hears, READ_AHEAD_SAMPLES);
    var extraction := new Extraction(table, rateOf, describes, stores, moved, batchSize);
    var taken: nat := 0;
    ReadsAhead();
    NothingTaken(pending, hears);
    while true
      invariant reader.Valid() && !reader.closed && fresh(reader) && fresh(extraction)
      invariant taken == reader.taken <= |pending|
      invariant extraction.Valid()
      invariant extraction.gathered == Heard(hears, pending[..taken])
      invariant |extraction.gathered| + extraction.unavailable == taken && NoneRaised(hears, pending[..taken])
      decreases |pending| - reader.taken
    {
      var yielded := reader.Next();
      match yielded
      case Finished =>
        assert pending[..taken] == pending;
        summary := FinishPass(extraction, pending, hears);
        break;
      case Raising(sample) =>
        NoneRaisedYet(hears, pending, taken);
        StoppedHere(extraction, pending, hears, taken);
        summary := Stopped(Reading, After(taken), extraction.newlyExtracted);
        break;
      case Yield(sample, heard) =>
        NoneRaisedYet(hears, pending, taken);
        var ended := TakeNext(extraction, sample, heard, pending, hears, taken);
        if ended.Some? {
          summary := ended.value;
          break;
        }
        taken := taken + 1;
    }
    Left(extraction, summary, pending, hears);
  }

  lemma ReadsAhead()
    ensures READ_AHEAD_SAMPLES > 0
  {
  }

  lemma NothingTaken(pending: seq<Hash>, hears: Hears)
    ensures Heard(hears, pending[..0]) == [] && NoneRaised(hears, pending[..0])
  {
  }

  lemma Left(extraction: Extraction, summary: Summary, pending: seq<Hash>, hears: Hears)
    requires EndsWith(extraction, summary, pending, hears)
    ensures Leaves(summary, pending,
      Setting(extraction.rateOf, extraction.describes, extraction.stores, extraction.batchSize), hears,
      extraction.start, extraction.table.held, extraction.earlier, extraction.table.commits)
  {
    hide Leaves;
  }

  // ------------------------------------------------------------------ one pass, stopped anywhere

  // What a pass leaves behind, stopped or finished: it described some of its pending samples, each only once heard.
  ghost predicate Describes(held: Held, after: Held, pending: seq<Hash>, rateOf: Hash -> Rate, hears: Hears,
      described: seq<Hash>) {
    && after == Described(held, described, rateOf)
    && forall h :: h in described ==> h in pending && IsHeard(hears, h)
  }

  /** A pass stopped anywhere has committed the first of the samples it heard, and lost at most one checkpoint of them:
      a whole one exactly where it was stopped inside taking the sample that fills it, before the commit. */
  lemma StoppedPassesDescribe(held: Held, pending: seq<Hash>, rateOf: Hash -> Rate, hears: Hears, stop: Stop)
    returns (described: seq<Hash>)
    requires !stop.AtTheEnd? && stop.taken <= |pending|
    ensures Describes(held, StoppedAt(held, pending, rateOf, hears, stop), pending, rateOf, hears, described)
    ensures var heard := Heard(hears, pending[..stop.taken]);
      && described <= heard && |heard| - |described| <= EXTRACTION_CHECKPOINT_INTERVAL
      && (|heard| - |described| == EXTRACTION_CHECKPOINT_INTERVAL <==>
            stop.Inside? && TakesHeard(hears, pending, stop.taken) && |heard| % EXTRACTION_CHECKPOINT_INTERVAL == 0)
  {
    var heard := Heard(hears, pending[..stop.taken]);
    described := heard[..CommittedBy(hears, pending, stop)];
    LostByAStop(hears, pending, stop);
    HeardAreAmong(hears, pending[..stop.taken]);
    hide Heard, Described, TakesHeard, CommittedBy, IsHeard;
    assert forall h :: h in described ==> h in heard;
  }

  lemma LostByAStop(hears: Hears, pending: seq<Hash>, stop: Stop)
    requires !stop.AtTheEnd? && stop.taken <= |pending|
    ensures var heard := |Heard(hears, pending[..stop.taken])|;
      var lost := heard - CommittedBy(hears, pending, stop);
      && lost <= EXTRACTION_CHECKPOINT_INTERVAL
      && (lost == EXTRACTION_CHECKPOINT_INTERVAL <==>
            stop.Inside? && TakesHeard(hears, pending, stop.taken) && heard % EXTRACTION_CHECKPOINT_INTERVAL == 0)
  {
    if stop.taken > 0 {
      assert pending[..stop.taken][..stop.taken - 1] == pending[..stop.taken - 1];
    }
    assert TakesHeard(hears, pending, stop.taken) ==> Heard(hears, pending[..stop.taken]) != [];
    hide Heard, TakesHeard, Committed;
    UnsavedAre(|Heard(hears, pending[..stop.taken])|);
  }

  lemma UnsavedAre(n: nat)
    ensures n - Committed(n) < EXTRACTION_CHECKPOINT_INTERVAL
    ensures n > 0 ==> n - Committed(n - 1) <= EXTRACTION_CHECKPOINT_INTERVAL
    ensures n > 0 ==> (n - Committed(n - 1) == EXTRACTION_CHECKPOINT_INTERVAL <==>
      n % EXTRACTION_CHECKPOINT_INTERVAL == 0)
  {
  }

  lemma FinishedPassesDescribe(held: Held, pending: seq<Hash>, rateOf: Hash -> Rate, hears: Hears)
    ensures Describes(held, Finished(held, pending, rateOf, hears), pending, rateOf, hears, Heard(hears, pending))
  {
    HeardAreAmong(hears, pending);
  }

  /** In an unchanged library, what is pending after a stop is what was pending before it without what the stopped
      pass committed: nothing is described twice and nothing is left out. */
  lemma APassTakesUpWhereTheLastStopped(samples: seq<Hash>, held: Held, rateOf: Hash -> Rate, hears: Hears,
      after: Held, described: seq<Hash>)
    requires Describes(held, after, Missing(samples, held, rateOf), rateOf, hears, described)
    ensures Missing(samples, after, rateOf) == Filter((h: Hash) => h !in described, Missing(samples, held, rateOf))
  {
    forall h | h in samples
      ensures IsPending(after, rateOf, h) <==> IsPending(held, rateOf, h) && h !in described
    {
      DescribedHolds(held, described, rateOf, h);
    }
    OnlyOfOnly(samples, (h: Hash) => IsPending(held, rateOf, h), (h: Hash) => h !in described,
      (h: Hash) => IsPending(after, rateOf, h));
  }

  lemma {:induction false} OnlyOfOnly(hashes: seq<Hash>, first: Hash -> bool, second: Hash -> bool, both: Hash -> bool)
    requires forall h :: h in hashes ==> (both(h) <==> first(h) && second(h))
    ensures Filter(both, hashes) == Filter(second, Filter(first, hashes))
  {
    if hashes != [] {
      assert hashes[0] in hashes;
      assert forall h :: h in hashes[1..] ==> h in hashes;
      OnlyOfOnly(hashes[1..], first, second, both);
      if first(hashes[0]) {
        assert Filter(first, hashes)[1..] == Filter(first, hashes[1..]);
      }
    }
  }

  /** `readable_pending_count`. */
  function ReadablePendingCount(held: Held, rateOf: Hash -> Rate, readable: set<Hash>): nat {
    |set h | h in readable && IsPending(held, rateOf, h)|
  }

  /** Nothing readable is pending exactly when each readable sample is held at the rate it is heard at now. */
  lemma NothingIsPendingWhereAllIsHeld(held: Held, rateOf: Hash -> Rate, readable: set<Hash>)
    ensures ReadablePendingCount(held, rateOf, readable) == 0 <==>
      forall h :: h in readable ==> h in held && held[h] == rateOf(h)
    ensures held == map[] ==> ReadablePendingCount(held, rateOf, readable) == |readable|
  {
    var pending := set h | h in readable && IsPending(held, rateOf, h);
    assert |pending| == 0 <==> pending == {};
    if pending == {} {
      forall h | h in readable
        ensures h in held && held[h] == rateOf(h)
      {
        assert h !in pending;
      }
    }
    if held == map[] {
      assert pending == readable;
    }
  }

  /** A pass that finishes with no limit leaves nothing readable pending, as long as whatever a status call finds
      readable is cataloged and can be read. */
  lemma AFinishedPassLeavesNothingReadablePending(
    samples: seq<Hash>, held: Held, rateOf: Hash -> Rate, hears: Hears, readable: set<Hash>)
    requires Distinct(samples) && forall h :: h in readable ==> h in samples && IsHeard(hears, h)
    ensures ReadablePendingCount(Finished(held, Pending(samples, held, rateOf, Unlimited), rateOf, hears), rateOf,
      readable) == 0
  {
    var pending := Pending(samples, held, rateOf, Unlimited);
    var after := Finished(held, pending, rateOf, hears);
    OnlyKeeps((h: Hash) => IsPending(held, rateOf, h), samples);
    HeardAreAmong(hears, pending);
    forall h | h in readable
      ensures !IsPending(after, rateOf, h)
    {
      DescribedHolds(held, Heard(hears, pending), rateOf, h);
    }
    assert (set h | h in readable && IsPending(after, rateOf, h)) == {};
  }

  // ------------------------------------------------------------------ passes one after another

  /** One pass over the library as it stands at the time, run to its end or stopped. */
  datatype Visit = Visit(samples: seq<Hash>, rateOf: Hash -> Rate, hears: Hears, limit: Limit, stop: Stop)

  // A stop that lies past the last pending sample is one at it.
  function Reached(stop: Stop, pending: nat): (reached: Stop)
    requires !stop.AtTheEnd?
    ensures !reached.AtTheEnd? && reached.taken <= pending
  {
    if stop.taken <= pending then stop else After(pending)
  }

  ghost predicate Possible(v: Visit) {
    Distinct(v.samples)
  }

  function AfterVisit(held: Held, v: Visit): Held {
    if v.limit == First(0) then held
    else
      var pending := Pending(v.samples, held, v.rateOf, v.limit);
      if v.stop.AtTheEnd? then Finished(held, pending, v.rateOf, v.hears)
      else StoppedAt(held, pending, v.rateOf, v.hears, Reached(v.stop, |pending|))
  }

  function AfterVisits(held: Held, visits: seq<Visit>): Held {
    if visits == [] then held else AfterVisit(AfterVisits(held, visits[..|visits| - 1]), visits[|visits| - 1])
  }

  // Of the samples heard before it stopped, a pass has committed whole checkpoints.
  lemma AStopCommitsItsFirst(hears: Hears, pending: seq<Hash>, stop: Stop, heard: seq<Hash>)
    requires !stop.AtTheEnd? && stop.taken <= |pending| && heard == Heard(hears, pending[..stop.taken])
    ensures var inside := stop.Inside? && 0 < stop.taken && hears(pending[stop.taken - 1]) == Answered(true);
      var whole := |heard| - if inside then 1 else 0;
      whole >= 0 && CommittedBy(hears, pending, stop) == whole - whole % 500
  {
    if 0 < stop.taken {
      assert pending[..stop.taken][..stop.taken - 1] == pending[..stop.taken - 1];
    }
    assert TakesHeard(hears, pending, stop.taken) ==> heard != [];
    WholeCheckpointsOf(|heard|);
    if heard != [] {
      WholeCheckpointsOf(|heard| - 1);
    }
    hide Heard, Committed;
  }

  /** What one pass leaves: of the pending samples it took, those it heard, all of them where it ran to its end and
      otherwise whole checkpoints of them, the sample it was stopped inside not counted. */
  lemma AVisitCommitsItsFirst(held: Held, v: Visit)
    ensures var pending := Pending(v.samples, held, v.rateOf, v.limit);
      var taken := if v.stop.AtTheEnd? || v.stop.taken > |pending| then |pending| else v.stop.taken;
      var inside := v.stop.Inside? && 0 < v.stop.taken <= |pending| && v.hears(pending[taken - 1]) == Answered(true);
      var heard := Heard(v.hears, pending[..taken]);
      var whole := |heard| - if inside then 1 else 0;
      var committed := if v.stop.AtTheEnd? then |heard| else whole - whole % 500;
      0 <= committed <= |heard| && AfterVisit(held, v) == Described(held, heard[..committed], v.rateOf)
  {
    hide Described, Committed, Heard, CommittedBy;
    var pending := Pending(v.samples, held, v.rateOf, v.limit);
    if v.limit == First(0) {
      assert pending == [];
      NothingVisited(held, v);
    } else {
      hide Pending;
      if v.stop.AtTheEnd? {
        assert pending[..|pending|] == pending;
        assert Heard(v.hears, pending)[..|Heard(v.hears, pending)|] == Heard(v.hears, pending);
      } else {
        var stop := Reached(v.stop, |pending|);
        AStopCommitsItsFirst(v.hears, pending, stop, Heard(v.hears, pending[..stop.taken]));
      }
    }
  }

  lemma NothingVisited(held: Held, v: Visit)
    requires v.limit == First(0)
    ensures AfterVisit(held, v) == held == Described(held, [], v.rateOf) && Heard(v.hears, []) == []
  {
  }

  lemma WholeCheckpointsOf(n: nat)
    ensures Committed(n) == n - n % 500
  {
  }

  /** Passes one after another: each begins with what those before it left. */
  lemma VisitsInTurn(held: Held, visits: seq<Visit>, v: Visit)
    ensures AfterVisits(held, []) == held
    ensures AfterVisits(held, visits + [v]) == AfterVisit(AfterVisits(held, visits), v)
  {
    assert (visits + [v])[..|visits|] == visits;
  }

  lemma OneVisitDescribes(held: Held, v: Visit) returns (described: seq<Hash>)
    requires Possible(v)
    ensures AfterVisit(held, v) == Described(held, described, v.rateOf)
    ensures forall h :: h in described ==> h in v.samples && IsPending(held, v.rateOf, h) && IsHeard(v.hears, h)
  {
    var pending := Pending(v.samples, held, v.rateOf, v.limit);
    OnlyKeeps((h: Hash) => IsPending(held, v.rateOf, h), v.samples);
    assert forall h :: h in pending ==> h in Missing(v.samples, held, v.rateOf);
    if v.limit == First(0) {
      described := [];
    } else if v.stop.AtTheEnd? {
      FinishedPassesDescribe(held, pending, v.rateOf, v.hears);
      described := Heard(v.hears, pending);
    } else {
      described := StoppedPassesDescribe(held, pending, v.rateOf, v.hears, Reached(v.stop, |pending|));
    }
  }

  /** Over any sequence of passes, each stopped anywhere and the library changing in between, a sample once described
      stays described, and its vector changes only in a pass that hears it, to the rate that pass plays it at. */
  lemma {:induction false} VectorsAreReplacedNeverLost(held: Held, visits: seq<Visit>, h: Hash)
    requires forall v :: v in visits ==> Possible(v)
    ensures h in held ==> h in AfterVisits(held, visits)
    ensures h in AfterVisits(held, visits) ==>
      || (h in held && AfterVisits(held, visits)[h] == held[h])
      || exists v :: v in visits && h in v.samples && IsHeard(v.hears, h) && AfterVisits(held, visits)[h] == v.rateOf(h)
  {
    if visits != [] {
      var last := |visits| - 1;
      var v := visits[last];
      assert v in visits && forall u :: u in visits[..last] ==> u in visits;
      VectorsAreReplacedNeverLost(held, visits[..last], h);
      var before := AfterVisits(held, visits[..last]);
      var described := OneVisitDescribes(before, v);
      DescribedHolds(before, described, v.rateOf, h);
    }
  }
}
