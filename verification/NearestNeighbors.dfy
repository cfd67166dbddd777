/** The neighbour search over a whole catalog in one pass (src/samplecore/spectral_distance.py). Coordinates are real
    numbers, and the square root is a parameter. */
module SpectralDistance {
  import opened Options
  import opened Sorting

  type Hash = nat

  // ------------------------------------------------------------------ distances

  function Dot(a: seq<real>, b: seq<real>): real
    requires |a| == |b|
  {
    if a == [] then 0.0 else a[0] * b[0] + Dot(a[1..], b[1..])
  }

  function SquaredDistance(a: seq<real>, b: seq<real>): real
    requires |a| == |b|
  {
    if a == [] then 0.0 else (a[0] - b[0]) * (a[0] - b[0]) + SquaredDistance(a[1..], b[1..])
  }

  function EuclideanDistance(root: real -> real, a: seq<real>, b: seq<real>): real
    requires |a| == |b|
  {
    root(SquaredDistance(a, b))
  }

  /** A squared distance is one coordinate's squared difference, and adds up over the coordinates. */
  lemma {:induction false} SquaredDistancesAddUp(a: seq<real>, b: seq<real>, c: seq<real>, d: seq<real>)
    requires |a| == |b| && |c| == |d|
    ensures |a| == 1 ==> SquaredDistance(a, b) == (a[0] - b[0]) * (a[0] - b[0])
    ensures SquaredDistance(a + c, b + d) == SquaredDistance(a, b) + SquaredDistance(c, d)
  {
    if a == [] {
      assert a + c == c && b + d == d;
    } else {
      assert (a + c)[1..] == a[1..] + c && (b + d)[1..] == b[1..] + d;
      SquaredDistancesAddUp(a[1..], b[1..], c, d);
    }
  }

  /** The norms and one product give the squared distance, in any number of dimensions, so clipping it at zero changes
      nothing. */
  lemma {:induction false} NormsExpandTheDistance(a: seq<real>, b: seq<real>)
    requires |a| == |b|
    ensures Dot(a, a) - 2.0 * Dot(a, b) + Dot(b, b) == SquaredDistance(a, b) >= 0.0
  {
    if a != [] {
      var x, y, ta, tb := a[0], b[0], a[1..], b[1..];
      var aa, ab, bb, d := Dot(ta, ta), Dot(ta, tb), Dot(tb, tb), SquaredDistance(ta, tb);
      NormsExpandTheDistance(ta, tb);
      FirstCoordinates(a, b);
      hide *;
      OneDimension(x, y, aa, ab, bb);
    }
  }

  lemma FirstCoordinates(a: seq<real>, b: seq<real>)
    requires |a| == |b| && a != []
    ensures Dot(a, b) == a[0] * b[0] + Dot(a[1..], b[1..])
    ensures Dot(a, a) == a[0] * a[0] + Dot(a[1..], a[1..]) && Dot(b, b) == b[0] * b[0] + Dot(b[1..], b[1..])
    ensures SquaredDistance(a, b) == (a[0] - b[0]) * (a[0] - b[0]) + SquaredDistance(a[1..], b[1..])
  {
  }

  lemma OneDimension(x: real, y: real, a: real, c: real, b: real)
    ensures (x * x + a) - 2.0 * (x * y + c) + (y * y + b) == (x - y) * (x - y) + (a - 2.0 * c + b)
    ensures (x - y) * (x - y) >= 0.0
  {
    assert (x - y) * (x - y) == x * x - 2.0 * (x * y) + y * y;
  }

  // ------------------------------------------------------------------ the search

  /** How far a row lies from the target; the target itself is put out of reach. */
  datatype Reach = At(distance: real) | Infinite

  datatype Entry = Entry(hash: Hash, reach: Reach)

  datatype Vectors = Vectors(hashes: seq<Hash>, matrix: seq<seq<real>>) {
    ghost predicate Valid() {
      && |hashes| == |matrix|
      && (forall i, j :: 0 <= i < |matrix| && 0 <= j < |matrix| ==> |matrix[i]| == |matrix[j]|)
      && (forall i, j :: 0 <= i < j < |hashes| ==> hashes[i] != hashes[j])
    }
  }

  predicate NoFurther(a: Reach, b: Reach) {
    b.Infinite? || (a.At? && a.distance <= b.distance)
  }

  /** Nearer first, a tie broken by the lower hash. */
  predicate Before(a: Entry, b: Entry) {
    if a.reach == b.reach then a.hash <= b.hash else NoFurther(a.reach, b.reach)
  }

  predicate IsNear(e: Entry) {
    e.reach.At?
  }

  lemma TheOrdersAreTotal()
    ensures TotalPreorder(NoFurther) && TotalPreorder(Before)
  {
  }

  function Clipped(x: real): real {
    if x < 0.0 then 0.0 else x
  }

  function RowOf(hashes: seq<Hash>, h: Hash): (row: Option<nat>)
    ensures row.Some? ==> row.value < |hashes| && hashes[row.value] == h
    ensures row.None? ==> h !in hashes
  {
    if hashes == [] then None
    else if hashes[|hashes| - 1] == h then Some(|hashes| - 1)
    else RowOf(hashes[..|hashes| - 1], h)
  }

  /** Each hash paired with its row's reach. */
  function EntriesFrom(hashes: seq<Hash>, reaches: seq<Reach>): (entries: seq<Entry>)
    requires |hashes| == |reaches|
    ensures |entries| == |hashes|
  {
    if hashes == [] then [] else [Entry(hashes[0], reaches[0])] + EntriesFrom(hashes[1..], reaches[1..])
  }

  /** Every row but the target's, by its true Euclidean distance from it. */
  function Others(v: Vectors, root: real -> real, target: nat, k: nat): (others: seq<Entry>)
    requires v.Valid() && target < |v.hashes| && k <= |v.hashes|
    decreases |v.hashes| - k
  {
    if k == |v.hashes| then
      []
    else if k == target then
      Others(v, root, target, k + 1)
    else
      [Entry(v.hashes[k], At(EuclideanDistance(root, v.matrix[k], v.matrix[target])))]
      + Others(v, root, target, k + 1)
  }

  function Kept(limit: int, count: nat): int {
    if limit <= count - 1 then limit else count - 1
  }

  /** What the search means: every other row sorted by distance and then hash, and the first of them. */
  function Nearest(v: Vectors, root: real -> real, target: nat, limit: int): seq<Entry>
    requires v.Valid() && target < |v.hashes|
  {
    var sorted := Sort(Before, Others(v, root, target, 0));
    var kept := Kept(limit, |v.hashes|);
    if kept <= 0 then [] else if kept <= |sorted| then sorted[..kept] else sorted
  }

  ghost function Distance(v: Vectors, root: real -> real, target: nat, k: nat): real
    requires v.Valid() && target < |v.hashes| && k < |v.hashes|
  {
    root(SquaredDistance(v.matrix[k], v.matrix[target]))
  }

  /** An entry lies nearer than a row of that distance and hash, or as near with the lower hash. */
  ghost predicate Precedes(e: Entry, distance: real, hash: Hash) {
    e.reach.At? && (e.reach.distance < distance || (e.reach.distance == distance && e.hash < hash))
  }

  /** An entry is the k-th row with its own distance, another than the target. */
  ghost predicate IsRow(v: Vectors, root: real -> real, target: nat, k: nat, e: Entry)
    requires v.Valid() && target < |v.hashes|
  {
    k < |v.hashes| && k != target && e.hash == v.hashes[k] && e.reach.At?
    && e.reach.distance == Distance(v, root, target, k)
  }

  ghost predicate IsOther(v: Vectors, root: real -> real, target: nat, from: nat, e: Entry)
    requires v.Valid() && target < |v.hashes|
  {
    exists k: nat :: from <= k && IsRow(v, root, target, k, e)
  }

  ghost predicate StandsBefore(a: Entry, b: Entry) {
    b.reach.At? && Precedes(a, b.reach.distance, b.hash)
  }

  ghost predicate LeavesOut(v: Vectors, target: nat, found: seq<Entry>, k: nat) {
    k < |v.hashes| && k != target && forall i :: 0 <= i < |found| ==> found[i].hash != v.hashes[k]
  }

  /** As many rows as asked for and there are, each another than the target with its own distance, nearest first; and
      every row left out is further than each of them, or as far with a higher hash. */
  ghost predicate AreTheNearest(v: Vectors, root: real -> real, target: nat, limit: int, found: seq<Entry>)
    requires v.Valid() && target < |v.hashes|
  {
    && |found| == (if limit <= 0 then 0 else if limit < |v.hashes| - 1 then limit else |v.hashes| - 1)
    && (forall i :: 0 <= i < |found| ==> IsOther(v, root, target, 0, found[i]))
    && (forall i, j :: 0 <= i < j < |found| ==>
          StandsBefore(found[i], found[j]))
    && (forall i, k: nat :: 0 <= i < |found| && LeavesOut(v, target, found, k) ==>
          Precedes(found[i], Distance(v, root, target, k), v.hashes[k]))
  }

  lemma NotAnother(v: Vectors, root: real -> real, target: nat, k: nat, e: Entry)
    requires v.Valid() && target < |v.hashes| && k < |v.hashes| && e.hash == v.hashes[k]
    ensures !IsOther(v, root, target, k + 1, e)
  {
    hide Distance;
  }

  lemma OtherFrom(v: Vectors, root: real -> real, target: nat, k: nat, e: Entry)
    requires v.Valid() && target < |v.hashes| && k < |v.hashes|
    ensures IsOther(v, root, target, k, e) <==> IsRow(v, root, target, k, e) || IsOther(v, root, target, k + 1, e)
  {
    hide IsRow;
  }

  lemma {:induction false} OthersHold(v: Vectors, root: real -> real, target: nat, k: nat, e: Entry)
    requires v.Valid() && target < |v.hashes| && k <= |v.hashes|
    ensures e in Others(v, root, target, k) <==> IsOther(v, root, target, k, e)
    ensures multiset(Others(v, root, target, k))[e] <= 1
    decreases |v.hashes| - k
  {
    if k < |v.hashes| {
      OthersHold(v, root, target, k + 1, e);
      OtherFrom(v, root, target, k, e);
      var rest := Others(v, root, target, k + 1);
      if k == target {
        assert Others(v, root, target, k) == rest;
      } else {
        var first := Entry(v.hashes[k], At(Distance(v, root, target, k)));
        assert Others(v, root, target, k) == [first] + rest;
        assert e == first <==> IsRow(v, root, target, k, e);
        NotAnother(v, root, target, k, first);
        hide *;
        assert multiset([first] + rest) == multiset{first} + multiset(rest);
        assert e in [first] + rest <==> e == first || e in rest;
      }
    }
  }

  lemma BeforeIsPrecedes(a: Entry, b: Entry)
    requires a.reach.At? && b.reach.At? && a.hash != b.hash
    ensures Before(a, b) <==> Precedes(a, b.reach.distance, b.hash)
  {
  }

  lemma RowsDiffer(v: Vectors, root: real -> real, target: nat, a: Entry, b: Entry)
    requires v.Valid() && target < |v.hashes|
    requires IsOther(v, root, target, 0, a) && IsOther(v, root, target, 0, b) && a != b
    ensures a.hash != b.hash && a.reach.At? && b.reach.At?
  {
    var k: nat :| IsRow(v, root, target, k, a);
    var l: nat :| IsRow(v, root, target, l, b);
  }

  lemma PairsDiffer(s: seq<Entry>, i: nat, j: nat)
    requires i < j < |s| && multiset(s)[s[i]] <= 1
    ensures s[i] != s[j]
  {
    if s[i] == s[j] {
      MultiplicityOfAPair(s, i, j);
    }
  }

  /** The others in the order of the search. */
  ghost predicate InOrder(v: Vectors, root: real -> real, target: nat, sorted: seq<Entry>)
    requires v.Valid() && target < |v.hashes|
  {
    Sorted(Before, sorted) && multiset(sorted) == multiset(Others(v, root, target, 0))
  }

  // Among the others sorted, each is a row, and stands before the ones behind it.
  lemma SortedOthersPrecede(v: Vectors, root: real -> real, target: nat, sorted: seq<Entry>, i: nat, j: nat)
    requires v.Valid() && target < |v.hashes| && i <= j < |sorted|
    requires InOrder(v, root, target, sorted)
    ensures IsOther(v, root, target, 0, sorted[i]) && sorted[j].reach.At?
    ensures i < j ==> StandsBefore(sorted[i], sorted[j])
  {
    var a, b := sorted[i], sorted[j];
    assert a in multiset(sorted) && b in multiset(sorted);
    OthersHold(v, root, target, 0, a);
    OthersHold(v, root, target, 0, b);
    assert a in Others(v, root, target, 0) && b in Others(v, root, target, 0);
    if i < j {
      assert Before(a, b);
      hide Others, Before, Precedes, IsOther;
      PairsDiffer(sorted, i, j);
      RowsDiffer(v, root, target, a, b);
      BeforeIsPrecedes(a, b);
    }
    hide Others, Before, Precedes, IsRow;
    assert b.reach.At? by { var k: nat :| IsRow(v, root, target, k, b); IsRowReaches(v, root, target, k, b); }
  }

  lemma IsRowReaches(v: Vectors, root: real -> real, target: nat, k: nat, e: Entry)
    requires v.Valid() && target < |v.hashes| && IsRow(v, root, target, k, e)
    ensures e.reach.At?
  {
  }

  lemma WhereTheRowIs(v: Vectors, root: real -> real, target: nat, sorted: seq<Entry>, k: nat) returns (j: nat)
    requires v.Valid() && target < |v.hashes| && k < |v.hashes| && k != target
    requires multiset(sorted) == multiset(Others(v, root, target, 0))
    ensures j < |sorted| && sorted[j] == Entry(v.hashes[k], At(Distance(v, root, target, k)))
  {
    var e := Entry(v.hashes[k], At(Distance(v, root, target, k)));
    OthersHold(v, root, target, 0, e);
    assert IsRow(v, root, target, k, e);
    hide Others;
    assert e in multiset(Others(v, root, target, 0));
    assert e in multiset(sorted);
    j :| 0 <= j < |sorted| && sorted[j] == e;
  }

  lemma NearestAreInOrder(v: Vectors, root: real -> real, target: nat, limit: int) returns (sorted: seq<Entry>)
    requires v.Valid() && target < |v.hashes|
    ensures InOrder(v, root, target, sorted) && Nearest(v, root, target, limit) <= sorted
    ensures |Nearest(v, root, target, limit)|
         == if limit <= 0 then 0 else if limit < |v.hashes| - 1 then limit else |v.hashes| - 1
  {
    var others := Others(v, root, target, 0);
    sorted := Sort(Before, others);
    OthersAreAllButOne(v, root, target, 0);
    TheOrdersAreTotal();
    SortIsSorted(Before, others);
    hide Others, Before, Sort;
  }

  lemma PrefixOfTheOrder(v: Vectors, root: real -> real, target: nat, sorted: seq<Entry>, found: seq<Entry>)
    requires v.Valid() && target < |v.hashes| && InOrder(v, root, target, sorted) && found <= sorted
    ensures forall i :: 0 <= i < |found| ==> IsOther(v, root, target, 0, found[i])
    ensures forall i, j :: 0 <= i < j < |found| ==>
      StandsBefore(found[i], found[j])
    ensures forall i, k: nat :: 0 <= i < |found| && LeavesOut(v, target, found, k) ==>
      Precedes(found[i], Distance(v, root, target, k), v.hashes[k])
  {
    hide Others, Before, StandsBefore, IsOther, Distance, InOrder, Precedes;
    assert found == sorted[..|found|];
    forall i | 0 <= i < |found|
      ensures IsOther(v, root, target, 0, found[i])
    {
      assert found[i] == sorted[i];
      SortedOthersPrecede(v, root, target, sorted, i, i);
    }
    forall i, j | 0 <= i < j < |found|
      ensures StandsBefore(found[i], found[j])
    {
      assert found[i] == sorted[i] && found[j] == sorted[j];
      SortedOthersPrecede(v, root, target, sorted, i, j);
    }
    forall i, k: nat | 0 <= i < |found| && LeavesOut(v, target, found, k)
      ensures Precedes(found[i], Distance(v, root, target, k), v.hashes[k])
    {
      LeftOutIsBehind(v, root, target, sorted, found, i, k);
    }
  }

  lemma LeftOutIsBehind(v: Vectors, root: real -> real, target: nat, sorted: seq<Entry>, found: seq<Entry>, i: nat,
      k: nat)
    requires v.Valid() && target < |v.hashes| && InOrder(v, root, target, sorted) && found <= sorted
    requires i < |found| && LeavesOut(v, target, found, k)
    ensures Precedes(found[i], Distance(v, root, target, k), v.hashes[k])
  {
    hide Others, Before, Precedes, IsRow, Distance;
    var j := WhereTheRowIs(v, root, target, sorted, k);
    assert found == sorted[..|found|];
    assert forall l :: 0 <= l < |found| ==> sorted[l].hash != v.hashes[k];
    assert j >= |found|;
    SortedOthersPrecede(v, root, target, sorted, i, j);
  }

  lemma NearestAreTheNearest(v: Vectors, root: real -> real, target: nat, limit: int)
    requires v.Valid() && target < |v.hashes|
    ensures AreTheNearest(v, root, target, limit, Nearest(v, root, target, limit))
  {
    var sorted := NearestAreInOrder(v, root, target, limit);
    hide InOrder, Nearest, Precedes, IsRow, LeavesOut, Distance;
    PrefixOfTheOrder(v, root, target, sorted, Nearest(v, root, target, limit));
  }

  method NearestNeighbors(v: Vectors, root: real -> real, targetHash: Hash, limit: int)
    returns (found: Option<seq<Entry>>)
    requires v.Valid()
    ensures found.None? <==> targetHash !in v.hashes
    ensures found.Some? ==>
              exists target ::
                && 0 <= target < |v.hashes|
                && v.hashes[target] == targetHash
                && found.value == Nearest(v, root, target, limit)
                && AreTheNearest(v, root, target, limit, found.value)
  {
    var row := RowOf(v.hashes, targetHash);
    if row.None? {
      return None;
    }
    var target := row.value;
    NearestAreTheNearest(v, root, target, limit);
    var reaches: seq<Reach> := [];
    for i := 0 to |v.hashes|
      invariant |reaches| == i
      invariant forall k :: 0 <= k < i ==> reaches[k] == At(EuclideanDistance(root, v.matrix[k], v.matrix[target]))
    {
      var squared := Dot(v.matrix[i], v.matrix[i]) - 2.0 * Dot(v.matrix[i], v.matrix[target])
        + Dot(v.matrix[target], v.matrix[target]);
      NormsExpandTheDistance(v.matrix[i], v.matrix[target]);
      reaches := reaches + [At(root(Clipped(squared)))];
    }
    reaches := reaches[target := Infinite];
    var kept := Kept(limit, |v.hashes|);
    if kept <= 0 {
      return Some([]);
    }
    var threshold := Sort(NoFurther, reaches)[kept - 1];
    var entries := EntriesFrom(v.hashes, reaches);
    var candidates := Filter(Within(threshold), entries);
    var order := Sort(Before, candidates);
    OthersAreTheNear(v, root, target, reaches, 0);
    assert v.hashes[0..] == v.hashes && reaches[0..] == reaches;
    OthersAreAllButOne(v, root, target, 0);
    TheFirstCandidatesAreTheNearest(v.hashes, reaches, kept);
    found := Some(order[..kept]);
  }

  function Within(threshold: Reach): Entry -> bool {
    (e: Entry) => NoFurther(e.reach, threshold)
  }

  function WithinReach(threshold: Reach): Reach -> bool {
    (r: Reach) => NoFurther(r, threshold)
  }

  lemma {:induction false} OthersAreTheNear(v: Vectors, root: real -> real, target: nat, reaches: seq<Reach>, k: nat)
    requires v.Valid() && target < |v.hashes| && |reaches| == |v.hashes| && k <= |v.hashes|
    requires forall i :: 0 <= i < |reaches| ==>
      reaches[i] == if i == target then Infinite else At(EuclideanDistance(root, v.matrix[i], v.matrix[target]))
    ensures Others(v, root, target, k) == Filter(IsNear, EntriesFrom(v.hashes[k..], reaches[k..]))
    decreases |v.hashes| - k
  {
    if k < |v.hashes| {
      OthersAreTheNear(v, root, target, reaches, k + 1);
      assert v.hashes[k..][1..] == v.hashes[k + 1..] && reaches[k..][1..] == reaches[k + 1..];
      var entries := EntriesFrom(v.hashes[k..], reaches[k..]);
      assert entries[1..] == EntriesFrom(v.hashes[k + 1..], reaches[k + 1..]);
    }
  }

  lemma {:induction false} OthersAreAllButOne(v: Vectors, root: real -> real, target: nat, k: nat)
    requires v.Valid() && target < |v.hashes| && k <= |v.hashes|
    ensures |Others(v, root, target, k)| == |v.hashes| - k - if k <= target then 1 else 0
    decreases |v.hashes| - k
  {
    if k < |v.hashes| {
      OthersAreAllButOne(v, root, target, k + 1);
    }
  }

  lemma {:induction false} AsManyWithin(hashes: seq<Hash>, reaches: seq<Reach>, threshold: Reach)
    requires |hashes| == |reaches|
    ensures |Filter(Within(threshold), EntriesFrom(hashes, reaches))| == |Filter(WithinReach(threshold), reaches)|
  {
    if hashes != [] {
      AsManyWithin(hashes[1..], reaches[1..], threshold);
      assert EntriesFrom(hashes, reaches)[1..] == EntriesFrom(hashes[1..], reaches[1..]);
    }
  }

  // Ties at the threshold included, at least as many rows lie within it as are kept.
  lemma CandidatesSuffice(hashes: seq<Hash>, reaches: seq<Reach>, kept: nat)
    requires |hashes| == |reaches| && 0 < kept <= |reaches|
    ensures |Filter(Within(Sort(NoFurther, reaches)[kept - 1]), EntriesFrom(hashes, reaches))| >= kept
  {
    TheOrdersAreTotal();
    var sorted := Sort(NoFurther, reaches);
    var threshold := sorted[kept - 1];
    SortIsSorted(NoFurther, reaches);
    FilterOfSort(NoFurther, WithinReach(threshold), reaches);
    forall i | 0 <= i < kept
      ensures WithinReach(threshold)(sorted[i])
    {
      if i < kept - 1 { assert NoFurther(sorted[i], sorted[kept - 1]); }
    }
    AtLeastTheFirstAreKept(WithinReach(threshold), sorted, kept);
    AsManyWithin(hashes, reaches, threshold);
  }

  /** Sorting only the rows within the threshold gives the same first rows as sorting every row in reach. */
  lemma TheFirstCandidatesAreTheNearest(hashes: seq<Hash>, reaches: seq<Reach>, kept: nat)
    requires |hashes| == |reaches| && 0 < kept <= |reaches|
    requires kept <= |Filter(IsNear, EntriesFrom(hashes, reaches))|
    ensures var entries := EntriesFrom(hashes, reaches);
      var candidates := Filter(Within(Sort(NoFurther, reaches)[kept - 1]), entries);
      kept <= |Sort(Before, candidates)| && Sort(Before, candidates)[..kept]
        == Sort(Before, Filter(IsNear, entries))[..kept]
  {
    TheOrdersAreTotal();
    var entries, threshold := EntriesFrom(hashes, reaches), Sort(NoFurther, reaches)[kept - 1];
    CandidatesSuffice(hashes, reaches, kept);
    SortedKeptIsAPrefix(Before, Within(threshold), entries);
    SortedKeptIsAPrefix(Before, IsNear, entries);
  }
}
