/** Near-duplicate classes as connected components (src/samplecore/equivalence_classes.py).

    A hash is the number its fixed-width hexadecimal digits spell, so comparing numbers is
    comparing the strings. The digest naming a class is a parameter, a function of the sorted members. */
module Relations {
  type Hash = nat

  datatype Relation = Relation(subject: Hash, reference: Hash)

  ghost predicate Joins(r: Relation, a: Hash, b: Hash) {
    (r.subject == a && r.reference == b) || (r.subject == b && r.reference == a)
  }

  ghost predicate Related(relations: seq<Relation>, a: Hash, b: Hash) {
    exists r :: r in relations && Joins(r, a, b)
  }

  ghost predicate Endpoint(relations: seq<Relation>, h: Hash) {
    exists r :: r in relations && (r.subject == h || r.reference == h)
  }

  ghost predicate Path(relations: seq<Relation>, p: seq<Hash>, a: Hash, b: Hash) {
    && |p| > 0 && p[0] == a && p[|p| - 1] == b
    && forall i :: 0 <= i < |p| - 1 ==> Related(relations, p[i], p[i + 1])
  }

  /** Some path of relations joins the two. */
  ghost predicate Connected(relations: seq<Relation>, a: Hash, b: Hash) {
    exists p :: Path(relations, p, a, b)
  }

  lemma ConnectedToItself(relations: seq<Relation>, a: Hash)
    ensures Connected(relations, a, a)
  {
    assert Path(relations, [a], a, a);
  }

  lemma ConnectedByOne(relations: seq<Relation>, a: Hash, b: Hash)
    requires Related(relations, a, b)
    ensures Connected(relations, a, b)
  {
    assert Path(relations, [a, b], a, b);
  }

  lemma ConnectedBack(relations: seq<Relation>, a: Hash, b: Hash)
    requires Connected(relations, a, b)
    ensures Connected(relations, b, a)
  {
    var p :| Path(relations, p, a, b);
    var q := seq(|p|, i requires 0 <= i < |p| => p[|p| - 1 - i]);
    forall i | 0 <= i < |q| - 1
      ensures Related(relations, q[i], q[i + 1])
    {
      var j := |p| - 2 - i;
      assert Related(relations, p[j], p[j + 1]);
      var r :| r in relations && Joins(r, p[j], p[j + 1]);
      assert Joins(r, q[i], q[i + 1]);
    }
    assert Path(relations, q, b, a);
  }

  lemma ConnectedOnwards(relations: seq<Relation>, a: Hash, b: Hash, c: Hash)
    requires Connected(relations, a, b) && Connected(relations, b, c)
    ensures Connected(relations, a, c)
  {
    var p :| Path(relations, p, a, b);
    var q :| Path(relations, q, b, c);
    var whole := p + q[1..];
    forall i | 0 <= i < |whole| - 1
      ensures Related(relations, whole[i], whole[i + 1])
    {
      if i >= |p| - 1 {
        assert whole[i] == q[i - (|p| - 1)] && whole[i + 1] == q[i - (|p| - 1) + 1];
      }
    }
    assert Path(relations, whole, a, c);
  }

  lemma ConnectedThroughMore(relations: seq<Relation>, more: seq<Relation>, a: Hash, b: Hash)
    requires Connected(relations, a, b)
    requires forall x, y :: Related(relations, x, y) ==> Related(more, x, y)
    ensures Connected(more, a, b)
  {
    var p :| Path(relations, p, a, b);
    assert Path(more, p, a, b);
  }

  /** A root for each endpoint, shared exactly by the endpoints some path joins. */
  ghost predicate Partitions(relations: seq<Relation>, root: map<Hash, Hash>) {
    && (forall h :: h in root <==> Endpoint(relations, h))
    && (forall r :: r in relations ==> r.subject in root && r.reference in root && root[r.subject] == root[r.reference])
    && (forall a, b :: a in root && b in root && root[a] == root[b] ==> Connected(relations, a, b))
  }

  lemma {:induction false} PathsStayUnderOneRoot(relations: seq<Relation>, root: map<Hash, Hash>, p: seq<Hash>,
      a: Hash, b: Hash)
    requires Partitions(relations, root) && Path(relations, p, a, b) && a in root
    ensures b in root && root[a] == root[b]
    decreases |p|
  {
    if |p| > 1 {
      assert Related(relations, p[0], p[1]);
      var r :| r in relations && Joins(r, p[0], p[1]);
      var rest := p[1..];
      forall i | 0 <= i < |rest| - 1
        ensures Related(relations, rest[i], rest[i + 1])
      {
        assert rest[i] == p[i + 1] && rest[i + 1] == p[i + 2];
        assert Related(relations, p[i + 1], p[i + 2]);
      }
      PathsStayUnderOneRoot(relations, root, rest, p[1], b);
    }
  }

  lemma SameRootIsConnected(relations: seq<Relation>, root: map<Hash, Hash>, a: Hash, b: Hash)
    requires Partitions(relations, root) && a in root
    ensures b in root && root[a] == root[b] <==> Connected(relations, a, b)
  {
    if Connected(relations, a, b) {
      var p :| Path(relations, p, a, b);
      PathsStayUnderOneRoot(relations, root, p, a, b);
    }
  }

  // The root of a hash already seen, and a new hash its own.
  function RootOrSelf(root: map<Hash, Hash>, h: Hash): Hash {
    if h in root then root[h] else h
  }

  function MergedRoot(before: map<Hash, Hash>, r: Relation, h: Hash): Hash {
    if RootOrSelf(before, h) == RootOrSelf(before, r.subject) then RootOrSelf(before, r.reference)
      else RootOrSelf(before, h)
  }

  /** What one more relation does to the roots: the subject's class comes under the reference's root. */
  ghost predicate Merges(before: map<Hash, Hash>, r: Relation, after: map<Hash, Hash>) {
    && after.Keys == before.Keys + {r.subject, r.reference}
    && forall h :: h in after ==> after[h] == MergedRoot(before, r, h)
  }

  lemma MergingKeepsThePartition(relations: seq<Relation>, r: Relation, before: map<Hash, Hash>, after: map<Hash, Hash>)
    requires Partitions(relations, before) && Merges(before, r, after)
    requires forall h :: h in before ==> before[h] in before && before[before[h]] == before[h]
    ensures Partitions(relations + [r], after)
  {
    var more := relations + [r];
    assert r in more && Joins(r, r.subject, r.reference);
    forall x, y | Related(relations, x, y)
      ensures Related(more, x, y)
    {
      var q :| q in relations && Joins(q, x, y);
      assert q in more;
    }
    forall h
      ensures h in after <==> Endpoint(more, h)
    {
      if Endpoint(relations, h) {
        var q :| q in relations && (q.subject == h || q.reference == h);
        assert q in more;
      }
      if Endpoint(more, h) && h != r.subject && h != r.reference {
        var q :| q in more && (q.subject == h || q.reference == h);
        assert q in relations;
      }
    }
    forall a, b | a in after && b in after && after[a] == after[b]
      ensures Connected(more, a, b)
    {
      MergedClassesAreConnected(relations, r, before, a, b);
    }
  }

  // Hashes under one root before stay joined.
  lemma SameBefore(relations: seq<Relation>, r: Relation, before: map<Hash, Hash>, a: Hash, b: Hash)
    requires Partitions(relations, before) && RootOrSelf(before, a) == RootOrSelf(before, b)
    requires forall h :: h in before ==> before[h] in before && before[before[h]] == before[h]
    ensures Connected(relations + [r], a, b)
  {
    if a in before && b in before {
      forall x, y | Related(relations, x, y)
        ensures Related(relations + [r], x, y)
      {
        var q :| q in relations && Joins(q, x, y);
        assert q in relations + [r];
      }
      ConnectedThroughMore(relations, relations + [r], a, b);
    } else {
      assert a == b;
      ConnectedToItself(relations + [r], a);
    }
  }

  lemma MergedClassesAreConnected(relations: seq<Relation>, r: Relation, before: map<Hash, Hash>, a: Hash, b: Hash)
    requires Partitions(relations, before)
    requires forall h :: h in before ==> before[h] in before && before[before[h]] == before[h]
    requires MergedRoot(before, r, a) == MergedRoot(before, r, b)
    ensures Connected(relations + [r], a, b)
  {
    var more := relations + [r];
    var s, t := RootOrSelf(before, r.subject), RootOrSelf(before, r.reference);
    if RootOrSelf(before, a) == RootOrSelf(before, b) {
      SameBefore(relations, r, before, a, b);
    } else {
      assert r in more && Joins(r, r.subject, r.reference);
      ConnectedByOne(more, r.subject, r.reference);
      if RootOrSelf(before, a) == s {
        SameBefore(relations, r, before, a, r.subject);
        SameBefore(relations, r, before, r.reference, b);
        ConnectedOnwards(more, a, r.subject, r.reference);
        ConnectedOnwards(more, a, r.reference, b);
      } else {
        SameBefore(relations, r, before, b, r.subject);
        SameBefore(relations, r, before, r.reference, a);
        ConnectedOnwards(more, b, r.subject, r.reference);
        ConnectedOnwards(more, b, r.reference, a);
        ConnectedBack(more, b, a);
      }
    }
  }
}

/** The parent map of `compute_equivalence_classes`, with its path compression and no rank. */
module ParentMap {
  import opened Relations

  /** One hash's place in the forest: the root it leads to, and a number growing along every step to it. */
  ghost predicate Placed(parents: map<Hash, Hash>, root: map<Hash, Hash>, rank: map<Hash, nat>, top: nat, h: Hash)
    requires h in parents && root.Keys == rank.Keys == parents.Keys
  {
    && parents[h] in parents && root[h] in parents
    && rank[h] <= top
    && (parents[h] == h <==> root[h] == h)
    && (parents[h] != h ==> rank[h] < rank[parents[h]] <= rank[root[h]])
    && root[parents[h]] == root[h]
    && parents[root[h]] == root[h]
  }

  ghost predicate Forest(parents: map<Hash, Hash>, root: map<Hash, Hash>, rank: map<Hash, nat>, top: nat) {
    && root.Keys == rank.Keys == parents.Keys
    && forall h {:trigger Placed(parents, root, rank, top, h)} :: h in parents ==> Placed(parents, root, rank, top, h)
  }

  lemma RootsAreTheirOwn(parents: map<Hash, Hash>, root: map<Hash, Hash>, rank: map<Hash, nat>, top: nat)
    requires Forest(parents, root, rank, top)
    ensures forall h :: h in root ==> root[h] in root && root[root[h]] == root[h]
  {
    forall h | h in root
      ensures root[h] in root && root[root[h]] == root[h]
    {
      assert Placed(parents, root, rank, top, h);
      assert Placed(parents, root, rank, top, root[h]);
    }
  }

  lemma Compressing(parents: map<Hash, Hash>, root: map<Hash, Hash>, rank: map<Hash, nat>, top: nat, at: Hash)
    requires Forest(parents, root, rank, top) && at in parents && root[at] != at
    ensures Forest(parents[at := root[at]], root, rank, top)
    ensures parents[at] in parents && root[parents[at]] == root[at] && rank[at] < rank[parents[at]] <= top
  {
    assert Placed(parents, root, rank, top, at);
    assert Placed(parents, root, rank, top, root[at]);
    assert Placed(parents, root, rank, top, parents[at]);
    var compressed := parents[at := root[at]];
    forall h | h in compressed
      ensures Placed(compressed, root, rank, top, h)
    {
      assert Placed(parents, root, rank, top, h);
    }
  }

  lemma Adopting(parents: map<Hash, Hash>, root: map<Hash, Hash>, rank: map<Hash, nat>, top: nat, h: Hash)
    requires Forest(parents, root, rank, top) && h !in parents
    ensures Forest(parents[h := h], root[h := h], rank[h := 0], top)
  {
    var adopted := parents[h := h];
    forall x | x in adopted
      ensures Placed(adopted, root[h := h], rank[h := 0], top, x)
    {
      if x != h {
        assert Placed(parents, root, rank, top, x);
      }
    }
  }

  function Rerooted(root: map<Hash, Hash>, from: Hash, to: Hash): map<Hash, Hash> {
    map h | h in root :: if root[h] == from then to else root[h]
  }

  lemma OneIsPlaced(parents: map<Hash, Hash>, root: map<Hash, Hash>, rank: map<Hash, nat>, top: nat, from: Hash,
      to: Hash, h: Hash)
    requires root.Keys == rank.Keys == parents.Keys && from in parents && to in parents && h in parents
    requires from != to && parents[from] == from && parents[to] == to
    requires Placed(parents, root, rank, top, from) && Placed(parents, root, rank, top, to)
      && Placed(parents, root, rank, top, h)
    ensures var lifted := rank[to] + rank[from] + 1;
      Placed(parents[from := to], Rerooted(root, from, to), rank[to := lifted], top + lifted, h)
  {
  }

  lemma Joining(parents: map<Hash, Hash>, root: map<Hash, Hash>, rank: map<Hash, nat>, top: nat, from: Hash, to: Hash)
    requires Forest(parents, root, rank, top)
    requires from in parents && to in parents && from != to && parents[from] == from && parents[to] == to
    ensures var lifted := rank[to] + rank[from] + 1;
      Forest(parents[from := to], Rerooted(root, from, to), rank[to := lifted], top + lifted)
  {
    hide Placed;
    var lifted := rank[to] + rank[from] + 1;
    forall h | h in parents
      ensures Placed(parents[from := to], Rerooted(root, from, to), rank[to := lifted], top + lifted, h)
    {
      OneIsPlaced(parents, root, rank, top, from, to, h);
    }
  }

  function Adopted(root: map<Hash, Hash>, h: Hash): map<Hash, Hash> {
    if h in root then root else root[h := h]
  }

  function Joined(root: map<Hash, Hash>, first: Hash, second: Hash): map<Hash, Hash>
    requires first in root && second in root
  {
    if root[first] == root[second] then root else Rerooted(root, root[first], root[second])
  }

  lemma AdoptingAndJoiningMerges(before: map<Hash, Hash>, first: Hash, second: Hash)
    ensures Merges(before, Relation(first, second), Joined(Adopted(Adopted(before, first), second), first, second))
  {
    var both := Adopted(Adopted(before, first), second);
    assert forall h :: h in both ==> both[h] == RootOrSelf(before, h);
  }

  class Parents {
    var parents: map<Hash, Hash>
    ghost var root: map<Hash, Hash>
    ghost var rank: map<Hash, nat>
    ghost var top: nat

    ghost predicate Valid()
      reads this
    {
      Forest(parents, root, rank, top)
    }

    constructor ()
      ensures Valid() && parents == map[] && root == map[]
    {
      parents, root, rank, top := map[], map[], map[], 0;
    }

    /** The root `h` leads to; every parent passed on the way becomes the root, and no root changes. */
    method Find(h: Hash) returns (r: Hash)
      requires Valid() && h in parents
      modifies `parents
      ensures Valid() && parents.Keys == old(parents.Keys)
      ensures r in parents && r == root[h] == parents[h] == root[r]
      ensures forall x :: x in parents ==> parents[x] == old(parents[x]) || parents[x] == root[x]
    {
      r := h;
      while parents[r] != r
        invariant r in parents && h in parents && root[r] == root[h]
        decreases top - rank[r]
      {
        assert Placed(parents, root, rank, top, r);
        assert Placed(parents, root, rank, top, parents[r]);
        r := parents[r];
      }
      assert Placed(parents, root, rank, top, r);
      var at := h;
      while parents[at] != r
        invariant Valid() && parents.Keys == old(parents.Keys)
        invariant at in parents && root[at] == r && r in parents && root[r] == r
        invariant at == h || parents[h] == r
        invariant forall x :: x in parents ==> parents[x] == old(parents[x]) || parents[x] == root[x]
        decreases top - rank[at]
      {
        assert Placed(parents, root, rank, top, at);
        Compressing(parents, root, rank, top, at);
        parents, at := parents[at := r], parents[at];
      }
    }

    /** The subject's class comes under the reference's root. */
    method Union(first: Hash, second: Hash)
      requires Valid()
      modifies this
      ensures Valid()
      ensures Merges(old(root), Relation(first, second), root)
    {
      Adopt(first);
      Adopt(second);
      assert root == Adopted(Adopted(old(root), first), second);
      AdoptingAndJoiningMerges(old(root), first, second);
      hide Adopted, Merges, Placed, Rerooted;
      var firstRoot := Find(first);
      var secondRoot := Find(second);
      if firstRoot != secondRoot {
        Attach(firstRoot, secondRoot);
      }
    }

    // One root comes to hang under another.
    method Attach(firstRoot: Hash, secondRoot: Hash)
      requires Valid() && firstRoot in root && secondRoot in root && firstRoot != secondRoot
      requires root[firstRoot] == firstRoot && root[secondRoot] == secondRoot
      modifies this
      ensures Valid() && root == Rerooted(old(root), firstRoot, secondRoot)
    {
      hide Rerooted;
      assert Placed(parents, root, rank, top, firstRoot);
      assert Placed(parents, root, rank, top, secondRoot);
      Joining(parents, root, rank, top, firstRoot, secondRoot);
      parents := parents[firstRoot := secondRoot];
      ghost var lifted := rank[secondRoot] + rank[firstRoot] + 1;
      root, rank, top := Rerooted(root, firstRoot, secondRoot), rank[secondRoot := lifted], top + lifted;
    }

    // A hash not met before becomes its own parent.
    method Adopt(h: Hash)
      requires Valid()
      modifies this
      ensures Valid() && h in parents
      ensures parents.Keys == root.Keys == old(root.Keys) + {h}
      ensures root == Adopted(old(root), h)
    {
      if h !in parents {
        Adopting(parents, root, rank, top, h);
        parents, root, rank := parents[h := h], root[h := h], rank[h := 0];
      }
    }
  }
}

module EquivalenceClasses {
  import opened Relations
  import opened ParentMap
  import opened Sorting

  datatype EquivalenceClass = EquivalenceClass(classHash: Hash, members: seq<Hash>)

  ghost predicate Ascending(s: seq<Hash>) {
    forall i, j :: 0 <= i < j < |s| ==> s[i] < s[j]
  }

  predicate ByClassHash(one: EquivalenceClass, other: EquivalenceClass) {
    one.classHash <= other.classHash
  }

  /** One class: its sorted members are a whole connected component, and its hash is their digest. */
  ghost predicate Component(relations: seq<Relation>, digest: seq<Hash> -> Hash, c: EquivalenceClass) {
    && c.classHash == digest(c.members) && Ascending(c.members) && c.members != []
    && Endpoint(relations, c.members[0])
    && forall h :: h in c.members <==> Connected(relations, c.members[0], h)
  }

  ghost predicate Disjoint(classes: seq<EquivalenceClass>) {
    && (forall c :: multiset(classes)[c] <= 1)
    && forall c, d, h :: c in classes && d in classes && h in c.members && h in d.members ==> c == d
  }

  /** The connected components of the relations, each once, every endpoint in one, by ascending class hash. */
  ghost predicate ClassesOf(relations: seq<Relation>, digest: seq<Hash> -> Hash, classes: seq<EquivalenceClass>) {
    && Sorted(ByClassHash, classes)
    && Disjoint(classes)
    && (forall c :: c in classes ==> Component(relations, digest, c))
    && (forall h :: Endpoint(relations, h) ==> exists c :: c in classes && h in c.members)
  }

  method SortedMembers(members: set<Hash>) returns (s: seq<Hash>)
    ensures Ascending(s) && forall h :: h in s <==> h in members
  {
    var listing := Listed(members);
    s := Sort(NoGreater, listing);
    SortIsSorted(NoGreater, listing);
    SortedSetIsStrict(s, members);
  }

  /** `members` holds, under each root, exactly the hashes leading to it. */
  ghost predicate Groups(root: map<Hash, Hash>, members: map<Hash, set<Hash>>, done: set<Hash>) {
    && (forall r, h :: r in members && h in members[r] ==> h in root && root[h] == r)
    && (forall h :: h in done && h in root ==> root[h] in members && h in members[root[h]])
    && (forall r :: r in members ==> members[r] != {})
  }

  method MembersByRoot(forest: Parents) returns (members: map<Hash, set<Hash>>)
    requires forest.Valid()
    modifies forest`parents
    ensures forest.Valid() && Groups(forest.root, members, forest.root.Keys)
  {
    members := map[];
    var remaining := forest.parents.Keys;
    while remaining != {}
      invariant remaining <= forest.parents.Keys == forest.root.Keys
      invariant forest.Valid()
      invariant Groups(forest.root, members, forest.root.Keys - remaining)
    {
      var h :| h in remaining;
      var r := forest.Find(h);
      members := members[r := (if r in members then members[r] else {}) + {h}];
      remaining := remaining - {h};
    }
  }

  // The class of the members under one root.
  ghost predicate ClassAt(digest: seq<Hash> -> Hash, members: map<Hash, set<Hash>>, r: Hash, c: EquivalenceClass) {
    r in members && c.classHash == digest(c.members) && Ascending(c.members) && forall h :: h in c.members <==>
      h in members[r]
  }

  // The classes gathered so far, each from a root of its own.
  ghost predicate Gathered(digest: seq<Hash> -> Hash, members: map<Hash, set<Hash>>, roots: seq<Hash>,
      classes: seq<EquivalenceClass>) {
    && |roots| == |classes| && Distinct(roots)
    && forall i :: 0 <= i < |roots| ==> ClassAt(digest, members, roots[i], classes[i])
  }

  lemma GroupIsAComponent(
    relations: seq<Relation>, digest: seq<Hash> -> Hash, root: map<Hash, Hash>, members: map<Hash, set<Hash>>,
    r: Hash, c: EquivalenceClass)
    requires Partitions(relations, root) && Groups(root, members, root.Keys) && ClassAt(digest, members, r, c)
    ensures Component(relations, digest, c)
  {
    var some :| some in members[r];
    assert some in c.members;
    var first := c.members[0];
    assert first in members[r] && first in root && root[first] == r;
    forall h
      ensures h in c.members <==> Connected(relations, first, h)
    {
      hide Partitions, Connected;
      SameRootIsConnected(relations, root, first, h);
      MemberExactlyUnderItsRoot(root, members, r, h);
    }
    assert Endpoint(relations, first);
  }

  lemma MemberExactlyUnderItsRoot(root: map<Hash, Hash>, members: map<Hash, set<Hash>>, r: Hash, h: Hash)
    requires Groups(root, members, root.Keys) && r in members
    ensures h in members[r] <==> h in root && root[h] == r
  {
  }

  lemma OneRootPerMember(
    digest: seq<Hash> -> Hash, root: map<Hash, Hash>, members: map<Hash, set<Hash>>, roots: seq<Hash>,
    gathered: seq<EquivalenceClass>,
    i: nat, j: nat, h: Hash)
    requires Groups(root, members, root.Keys) && Gathered(digest, members, roots, gathered)
    requires i < |gathered| && j < |gathered| && h in gathered[i].members && h in gathered[j].members
    ensures i == j
  {
    assert ClassAt(digest, members, roots[i], gathered[i]) && ClassAt(digest, members, roots[j], gathered[j]);
    assert root[h] == roots[i] && root[h] == roots[j];
  }

  lemma GatheredAreDisjoint(
    digest: seq<Hash> -> Hash, root: map<Hash, Hash>, members: map<Hash, set<Hash>>, roots: seq<Hash>,
      gathered: seq<EquivalenceClass>)
    requires Groups(root, members, root.Keys) && Gathered(digest, members, roots, gathered)
    ensures Disjoint(gathered)
  {
    forall i, j | 0 <= i < j < |gathered|
      ensures gathered[i] != gathered[j]
    {
      assert ClassAt(digest, members, roots[i], gathered[i]);
      var h :| h in members[roots[i]];
      if gathered[i] == gathered[j] {
        OneRootPerMember(digest, root, members, roots, gathered, i, j, h);
      }
    }
    forall c
      ensures multiset(gathered)[c] <= 1
    {
      DistinctOccursOnce(gathered, c);
    }
    forall c, d, h | c in gathered && d in gathered && h in c.members && h in d.members
      ensures c == d
    {
      var i :| 0 <= i < |gathered| && gathered[i] == c;
      var j :| 0 <= j < |gathered| && gathered[j] == d;
      OneRootPerMember(digest, root, members, roots, gathered, i, j, h);
    }
  }

  lemma GatheredCoverEveryEndpoint(
    relations: seq<Relation>, digest: seq<Hash> -> Hash, root: map<Hash, Hash>, members: map<Hash, set<Hash>>,
    roots: seq<Hash>, gathered: seq<EquivalenceClass>, h: Hash)
    requires Partitions(relations, root) && Groups(root, members, root.Keys)
    requires Gathered(digest, members, roots, gathered) && (forall r :: r in members ==> r in roots)
    requires Endpoint(relations, h)
    ensures exists c :: c in gathered && h in c.members
  {
    hide Connected;
    assert h in root && root[h] in members;
    var i :| 0 <= i < |roots| && roots[i] == root[h];
    assert ClassAt(digest, members, roots[i], gathered[i]);
    assert gathered[i] in gathered;
  }

  lemma ReorderedAreTheClasses(relations: seq<Relation>, digest: seq<Hash> -> Hash, gathered: seq<EquivalenceClass>,
      classes: seq<EquivalenceClass>)
    requires Disjoint(gathered)
    requires forall c :: c in gathered ==> Component(relations, digest, c)
    requires forall h :: Endpoint(relations, h) ==> exists c :: c in gathered && h in c.members
    requires multiset(classes) == multiset(gathered) && Sorted(ByClassHash, classes)
    ensures ClassesOf(relations, digest, classes)
  {
    hide Component, Endpoint, Sorted;
    assert forall c :: c in classes <==> c in multiset(classes);
    assert forall c :: c in gathered <==> c in multiset(gathered);
  }

  lemma GatheredAreTheClasses(
    relations: seq<Relation>, digest: seq<Hash> -> Hash, root: map<Hash, Hash>, members: map<Hash, set<Hash>>,
    roots: seq<Hash>, gathered: seq<EquivalenceClass>, classes: seq<EquivalenceClass>)
    requires Partitions(relations, root) && Groups(root, members, root.Keys)
    requires Gathered(digest, members, roots, gathered) && (forall r :: r in members ==> r in roots)
    requires multiset(classes) == multiset(gathered) && Sorted(ByClassHash, classes)
    ensures ClassesOf(relations, digest, classes)
  {
    assert |roots| == |gathered| && forall i :: 0 <= i < |roots| ==> ClassAt(digest, members, roots[i], gathered[i]);
    hide *;
    forall c | c in gathered
      ensures Component(relations, digest, c)
    {
      var i :| 0 <= i < |gathered| && gathered[i] == c;
      GroupIsAComponent(relations, digest, root, members, roots[i], c);
    }
    forall h | Endpoint(relations, h)
      ensures exists c :: c in gathered && h in c.members
    {
      GatheredCoverEveryEndpoint(relations, digest, root, members, roots, gathered, h);
    }
    GatheredAreDisjoint(digest, root, members, roots, gathered);
    ReorderedAreTheClasses(relations, digest, gathered, classes);
  }

  lemma {:induction false} AscendingIsUnique(s: seq<Hash>, t: seq<Hash>)
    requires Ascending(s) && Ascending(t) && forall h :: h in s <==> h in t
    ensures s == t
    decreases |s|
  {
    if s == [] {
      if t != [] {
        var x := SomeMember(t);
        assert false;
      }
    } else {
      assert s[0] in t && t != [];
      assert t[0] in s;
      var i :| 0 <= i < |t| && t[i] == s[0];
      var j :| 0 <= j < |s| && s[j] == t[0];
      assert s[0] == t[0];
      forall h
        ensures h in s[1..] <==> h in t[1..]
      {
        TailOfAscending(s, h);
        TailOfAscending(t, h);
      }
      AscendingIsUnique(s[1..], t[1..]);
      assert s == [s[0]] + s[1..] && t == [t[0]] + t[1..];
    }
  }

  lemma TailOfAscending(s: seq<Hash>, h: Hash)
    requires Ascending(s) && s != []
    ensures h in s[1..] <==> h in s && h != s[0]
  {
    if h in s && h != s[0] {
      var i :| 0 <= i < |s| && s[i] == h;
      assert s[1..][i - 1] == h;
    }
    if h in s[1..] {
      var i :| 0 <= i < |s[1..]| && s[1..][i] == h;
      assert s[0] < s[i + 1];
    }
  }

  lemma NoRelationsNoClasses()
    ensures Partitions([], map[])
  {
  }

  method ComputeEquivalenceClasses(relations: seq<Relation>, digest: seq<Hash> -> Hash)
    returns (classes: seq<EquivalenceClass>)
    ensures ClassesOf(relations, digest, classes)
  {
    hide Partitions, Merges, Forest, ClassesOf, Groups;
    var forest := new Parents();
    NoRelationsNoClasses();
    assert relations[..0] == [];
    for i := 0 to |relations|
      invariant forest.Valid() && fresh(forest)
      invariant Partitions(relations[..i], forest.root)
    {
      ghost var before := forest.root;
      RootsAreTheirOwn(forest.parents, forest.root, forest.rank, forest.top);
      forest.Union(relations[i].subject, relations[i].reference);
      assert Relation(relations[i].subject, relations[i].reference) == relations[i];
      MergingKeepsThePartition(relations[..i], relations[i], before, forest.root);
      assert relations[..i + 1] == relations[..i] + [relations[i]];
    }
    assert relations[..|relations|] == relations;
    var members := MembersByRoot(forest);
    classes := ClassesInOrder(relations, digest, forest.root, members);
  }

  lemma ByClassHashIsAPreorder()
    ensures TotalPreorder(ByClassHash)
  {
  }

  method ClassesInOrder(
    ghost relations: seq<Relation>, digest: seq<Hash> -> Hash, ghost root: map<Hash, Hash>, members: map<Hash,
      set<Hash>>)
    returns (classes: seq<EquivalenceClass>)
    requires Partitions(relations, root) && Groups(root, members, root.Keys)
    ensures ClassesOf(relations, digest, classes)
  {
    var gathered: seq<EquivalenceClass> := [];
    ghost var roots: seq<Hash> := [];
    var remaining := members.Keys;
    while remaining != {}
      invariant remaining <= members.Keys
      invariant Gathered(digest, members, roots, gathered)
      invariant forall r :: r in members && r !in remaining <==> r in roots
    {
      hide Groups, Partitions, ClassesOf, Ascending;
      var r :| r in remaining;
      var s := SortedMembers(members[r]);
      var c := EquivalenceClass(digest(s), s);
      assert ClassAt(digest, members, r, c);
      gathered, roots, remaining := gathered + [c], roots + [r], remaining - {r};
    }
    hide *;
    ByClassHashIsAPreorder();
    classes := Sort(ByClassHash, gathered);
    SortIsSorted(ByClassHash, gathered);
    GatheredAreTheClasses(relations, digest, root, members, roots, gathered, classes);
  }

  /** Different member lists digest apart. */
  ghost predicate Injective(digest: seq<Hash> -> Hash) {
    forall s, t :: digest(s) == digest(t) ==> s == t
  }

  lemma ComponentFromAnyMember(relations: seq<Relation>, digest: seq<Hash> -> Hash, c: EquivalenceClass, h: Hash,
      g: Hash)
    requires Component(relations, digest, c) && h in c.members
    ensures Endpoint(relations, h)
    ensures g in c.members <==> Connected(relations, h, g)
  {
    var first := c.members[0];
    ConnectedBack(relations, first, h);
    if Connected(relations, h, g) { ConnectedOnwards(relations, first, h, g); }
    if Connected(relations, first, g) { ConnectedOnwards(relations, h, first, g); }
    var p :| Path(relations, p, h, first);
    if |p| > 1 {
      assert Related(relations, p[0], p[1]);
      var r :| r in relations && Joins(r, h, p[1]);
    }
  }

  lemma SameClass(relations: seq<Relation>, others: seq<Relation>, digest: seq<Hash> -> Hash,
      classes: seq<EquivalenceClass>, c: EquivalenceClass)
    requires forall a, b :: Related(relations, a, b) <==> Related(others, a, b)
    requires Component(relations, digest, c) && ClassesOf(others, digest, classes)
    ensures c in classes
  {
    var h := c.members[0];
    EndpointsAreRelated(relations, others, h);
    var d :| d in classes && h in d.members;
    forall g
      ensures g in c.members <==> g in d.members
    {
      ComponentFromAnyMember(others, digest, d, h, g);
      if Connected(relations, h, g) { ConnectedThroughMore(relations, others, h, g); }
      if Connected(others, h, g) { ConnectedThroughMore(others, relations, h, g); }
    }
    AscendingIsUnique(c.members, d.members);
  }

  lemma EndpointsAreRelated(relations: seq<Relation>, others: seq<Relation>, h: Hash)
    requires forall a, b :: Related(relations, a, b) <==> Related(others, a, b)
    requires Endpoint(relations, h)
    ensures Endpoint(others, h)
  {
    var r :| r in relations && (r.subject == h || r.reference == h);
    var g := if r.subject == h then r.reference else r.subject;
    assert Joins(r, h, g);
    assert Related(others, h, g);
    var q :| q in others && Joins(q, h, g);
  }

  /** Sorted without ties, a sequence is the only one of its elements. */
  lemma FirstOfStrictlySorted(s: seq<EquivalenceClass>, c: EquivalenceClass)
    requires c in s && forall i, j :: 0 <= i < j < |s| ==> s[i].classHash < s[j].classHash
    ensures s[0].classHash <= c.classHash
  {
    var i :| 0 <= i < |s| && s[i] == c;
  }

  lemma OneOfEachHash(s: seq<EquivalenceClass>, c: EquivalenceClass, d: EquivalenceClass)
    requires c in s && d in s && forall i, j :: 0 <= i < j < |s| ==> s[i].classHash < s[j].classHash
    ensures c.classHash == d.classHash ==> c == d
  {
    var i :| 0 <= i < |s| && s[i] == c;
    var j :| 0 <= j < |s| && s[j] == d;
  }

  lemma {:induction false} StrictlySortedIsUnique(s: seq<EquivalenceClass>, t: seq<EquivalenceClass>)
    requires forall i, j :: 0 <= i < j < |s| ==> s[i].classHash < s[j].classHash
    requires forall i, j :: 0 <= i < j < |t| ==> t[i].classHash < t[j].classHash
    requires forall c :: c in s <==> c in t
    ensures s == t
    decreases |s|
  {
    if s == [] {
      if t != [] {
        var x := SomeMember(t);
        assert false;
      }
    } else {
      assert s[0] in t && t != [];
      assert t[0] in s;
      FirstOfStrictlySorted(s, t[0]);
      FirstOfStrictlySorted(t, s[0]);
      assert s[0] == t[0] by { OneOfEachHash(s, s[0], t[0]); }
      forall c
        ensures c in s[1..] <==> c in t[1..]
      {
        TailOfStrictlySorted(s, c);
        TailOfStrictlySorted(t, c);
      }
      StrictlySortedIsUnique(s[1..], t[1..]);
      assert s == [s[0]] + s[1..] && t == [t[0]] + t[1..];
    }
  }

  lemma TailOfStrictlySorted(s: seq<EquivalenceClass>, c: EquivalenceClass)
    requires s != [] && forall i, j :: 0 <= i < j < |s| ==> s[i].classHash < s[j].classHash
    ensures c in s[1..] <==> c in s && c != s[0]
  {
    if c in s && c != s[0] {
      var i :| 0 <= i < |s| && s[i] == c;
      assert s[1..][i - 1] == c;
    }
    if c in s[1..] {
      var i :| 0 <= i < |s[1..]| && s[1..][i] == c;
      assert s[0].classHash < s[i + 1].classHash;
    }
  }

  lemma ClassHashesAreStrict(relations: seq<Relation>, digest: seq<Hash> -> Hash, classes: seq<EquivalenceClass>)
    requires ClassesOf(relations, digest, classes) && Injective(digest)
    ensures forall i, j :: 0 <= i < j < |classes| ==> classes[i].classHash < classes[j].classHash
  {
    forall i, j | 0 <= i < j < |classes|
      ensures classes[i].classHash < classes[j].classHash
    {
      var c, d := classes[i], classes[j];
      assert ByClassHash(c, d) && c in classes && d in classes;
      if c.classHash == d.classHash {
        assert c == d;
        MultiplicityOfAPair(classes, i, j);
      }
    }
  }

  /** Reordering, repeating or flipping relations changes nothing: the pairs related decide the sequence returned. */
  lemma RelationsDecideTheClasses(
    relations: seq<Relation>, others: seq<Relation>, digest: seq<Hash> -> Hash,
    classes: seq<EquivalenceClass>, otherClasses: seq<EquivalenceClass>)
    requires forall a, b :: Related(relations, a, b) <==> Related(others, a, b)
    requires ClassesOf(relations, digest, classes) && ClassesOf(others, digest, otherClasses) && Injective(digest)
    ensures classes == otherClasses
  {
    forall c
      ensures c in classes <==> c in otherClasses
    {
      if c in classes { SameClass(relations, others, digest, otherClasses, c); }
      if c in otherClasses { SameClass(others, relations, digest, classes, c); }
    }
    ClassHashesAreStrict(relations, digest, classes);
    ClassHashesAreStrict(others, digest, otherClasses);
    StrictlySortedIsUnique(classes, otherClasses);
  }

  /** No class is a sample alone, as long as no sample is related to itself. */
  lemma EveryClassHasTwoMembers(relations: seq<Relation>, digest: seq<Hash> -> Hash, classes: seq<EquivalenceClass>,
      c: EquivalenceClass)
    requires ClassesOf(relations, digest, classes) && c in classes
    requires forall r :: r in relations ==> r.subject != r.reference
    ensures |c.members| >= 2
  {
    assert Component(relations, digest, c);
    var h := c.members[0];
    var r :| r in relations && (r.subject == h || r.reference == h);
    var g := if r.subject == h then r.reference else r.subject;
    assert Joins(r, h, g);
    ConnectedByOne(relations, h, g);
    assert g in c.members && g != h;
  }

  /** Every member hash with its class, a later class taking a hash an earlier one holds. */
  function ClassesByMember(classes: seq<EquivalenceClass>): map<Hash, EquivalenceClass> {
    if classes == [] then map[] else
      var last := classes[|classes| - 1];
      ClassesByMember(classes[..|classes| - 1]) + map h | h in last.members :: last
  }

  lemma {:induction false} IndexFindsAMembersClass(classes: seq<EquivalenceClass>, h: Hash)
    ensures h in ClassesByMember(classes) <==> exists c :: c in classes && h in c.members
    ensures h in ClassesByMember(classes) ==>
      ClassesByMember(classes)[h] in classes && h in ClassesByMember(classes)[h].members
  {
    if classes != [] {
      var last := |classes| - 1;
      IndexFindsAMembersClass(classes[..last], h);
      assert classes == classes[..last] + [classes[last]];
      if exists c :: c in classes && h in c.members {
        var c :| c in classes && h in c.members;
        assert c in classes[..last] || c == classes[last];
      }
    }
  }

  /** `equivalence_class_members` (src/sampleserver/equivalence.py): a sample's class, or the sample alone. */
  function MembersOf(classes: seq<EquivalenceClass>, h: Hash): seq<Hash> {
    var index := ClassesByMember(classes);
    if h in index then index[h].members else [h]
  }

  lemma MembersAreTheConnected(relations: seq<Relation>, digest: seq<Hash> -> Hash, classes: seq<EquivalenceClass>,
      h: Hash, g: Hash)
    requires ClassesOf(relations, digest, classes)
    ensures g in MembersOf(classes, h) <==> g == h || Connected(relations, h, g)
  {
    IndexFindsAMembersClass(classes, h);
    ConnectedToItself(relations, h);
    if h in ClassesByMember(classes) {
      ComponentFromAnyMember(relations, digest, ClassesByMember(classes)[h], h, g);
    } else if Connected(relations, h, g) && g != h {
      var p :| Path(relations, p, h, g);
      assert Related(relations, p[0], p[1]);
      assert Endpoint(relations, h);
    }
  }

  /** Being listed beside a sample is an equivalence: reflexive, symmetric and transitive. */
  lemma MembershipIsAnEquivalence(
    relations: seq<Relation>, digest: seq<Hash> -> Hash, classes: seq<EquivalenceClass>, a: Hash, b: Hash, c: Hash)
    requires ClassesOf(relations, digest, classes)
    ensures a in MembersOf(classes, a)
    ensures b in MembersOf(classes, a) ==> a in MembersOf(classes, b)
    ensures b in MembersOf(classes, a) && c in MembersOf(classes, b) ==> c in MembersOf(classes, a)
  {
    hide MembersOf, ClassesOf, Connected;
    MembersAreTheConnected(relations, digest, classes, a, a);
    MembersAreTheConnected(relations, digest, classes, a, b);
    MembersAreTheConnected(relations, digest, classes, b, a);
    MembersAreTheConnected(relations, digest, classes, b, c);
    MembersAreTheConnected(relations, digest, classes, a, c);
    if Connected(relations, a, b) {
      ConnectedBack(relations, a, b);
      if Connected(relations, b, c) {
        ConnectedOnwards(relations, a, b, c);
      }
    }
  }
}
