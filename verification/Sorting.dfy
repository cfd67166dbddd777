/** A stable sort, and why a sorted sequence is the only one of its elements. */
module Sorting {
  ghost predicate TotalPreorder<T(!new)>(leq: (T, T) -> bool) {
    && (forall x, y :: leq(x, y) || leq(y, x))
    && (forall x, y, z :: leq(x, y) && leq(y, z) ==> leq(x, z))
  }

  ghost predicate Sorted<T>(leq: (T, T) -> bool, s: seq<T>) {
    forall i, j :: 0 <= i < j < |s| ==> leq(s[i], s[j])
  }

  /** `x` before the first element it may stand before, so equal elements keep their order. */
  function Insert<T>(leq: (T, T) -> bool, x: T, s: seq<T>): (r: seq<T>)
    ensures |r| == |s| + 1
  {
    if s == [] || leq(x, s[0]) then [x] + s else [s[0]] + Insert(leq, x, s[1..])
  }

  function Sort<T>(leq: (T, T) -> bool, s: seq<T>): (r: seq<T>)
    ensures |r| == |s|
  {
    if s == [] then [] else Insert(leq, s[0], Sort(leq, s[1..]))
  }

  lemma {:induction false} InsertAddsOne<T>(leq: (T, T) -> bool, x: T, s: seq<T>)
    ensures multiset(Insert(leq, x, s)) == multiset(s) + multiset{x}
  {
    if s == [] || leq(x, s[0]) {
    } else {
      InsertAddsOne(leq, x, s[1..]);
      assert s == [s[0]] + s[1..];
    }
  }

  lemma ConsSorted<T>(leq: (T, T) -> bool, x: T, rest: seq<T>)
    requires Sorted(leq, rest) && forall y :: y in rest ==> leq(x, y)
    ensures Sorted(leq, [x] + rest)
  {
    var r := [x] + rest;
    forall i, j | 0 <= i < j < |r|
      ensures leq(r[i], r[j])
    {
      assert r[j] == rest[j - 1];
    }
  }

  lemma TailSorted<T>(leq: (T, T) -> bool, s: seq<T>)
    requires Sorted(leq, s) && s != []
    ensures Sorted(leq, s[1..]) && forall y :: y in s[1..] ==> leq(s[0], y)
  {
    forall i, j | 0 <= i < j < |s[1..]|
      ensures leq(s[1..][i], s[1..][j])
    {
      assert s[1..][i] == s[i + 1] && s[1..][j] == s[j + 1];
    }
  }

  lemma {:induction false} InsertKeepsSorted<T(!new)>(leq: (T, T) -> bool, x: T, s: seq<T>)
    requires TotalPreorder(leq) && Sorted(leq, s)
    ensures Sorted(leq, Insert(leq, x, s))
  {
    if s == [] {
    } else if leq(x, s[0]) {
      TailSorted(leq, s);
      ConsSorted(leq, x, s);
    } else {
      TailSorted(leq, s);
      InsertKeepsSorted(leq, x, s[1..]);
      InsertAddsOne(leq, x, s[1..]);
      var rest := Insert(leq, x, s[1..]);
      forall y | y in rest
        ensures leq(s[0], y)
      {
        assert y in multiset(rest);
      }
      ConsSorted(leq, s[0], rest);
    }
  }

  lemma {:induction false} SortIsSorted<T(!new)>(leq: (T, T) -> bool, s: seq<T>)
    requires TotalPreorder(leq)
    ensures Sorted(leq, Sort(leq, s)) && multiset(Sort(leq, s)) == multiset(s)
  {
    if s != [] {
      SortIsSorted(leq, s[1..]);
      InsertKeepsSorted(leq, s[0], Sort(leq, s[1..]));
      InsertAddsOne(leq, s[0], Sort(leq, s[1..]));
      assert s == [s[0]] + s[1..];
    }
  }

  function Filter<T>(keep: T -> bool, s: seq<T>): seq<T> {
    if s == [] then []
    else if keep(s[0]) then [s[0]] + Filter(keep, s[1..])
    else Filter(keep, s[1..])
  }

  lemma {:induction false} FilterKeeps<T>(keep: T -> bool, s: seq<T>)
    ensures forall y :: y in Filter(keep, s) <==> y in s && keep(y)
  {
    if s != [] {
      FilterKeeps(keep, s[1..]);
      assert s == [s[0]] + s[1..];
    }
  }

  lemma {:induction false} FilterOfInsert<T(!new)>(leq: (T, T) -> bool, keep: T -> bool, x: T, s: seq<T>)
    requires TotalPreorder(leq) && Sorted(leq, s)
    ensures Filter(keep, Insert(leq, x, s))
         == if keep(x) then Insert(leq, x, Filter(keep, s)) else Filter(keep, s)
  {
    if s == [] {
      assert Insert(leq, x, s)[1..] == [];
    } else if leq(x, s[0]) {
      assert Insert(leq, x, s)[1..] == s;
      var kept := Filter(keep, s);
      if keep(x) && kept != [] {
        FilterKeeps(keep, s);
        TailSorted(leq, s);
        assert kept[0] in s;
        assert leq(s[0], kept[0]);
      }
    } else {
      TailSorted(leq, s);
      FilterOfInsert(leq, keep, x, s[1..]);
      FilterOfCons(keep, s[0], Insert(leq, x, s[1..]));
      if keep(s[0]) {
        InsertPastHead(leq, x, s[0], Filter(keep, s[1..]));
      }
    }
  }

  lemma FilterOfCons<T>(keep: T -> bool, x: T, rest: seq<T>)
    ensures Filter(keep, [x] + rest) == if keep(x) then [x] + Filter(keep, rest) else Filter(keep, rest)
  {
    assert ([x] + rest)[1..] == rest;
  }

  lemma InsertPastHead<T>(leq: (T, T) -> bool, x: T, head: T, rest: seq<T>)
    requires !leq(x, head)
    ensures Insert(leq, x, [head] + rest) == [head] + Insert(leq, x, rest)
  {
    assert ([head] + rest)[1..] == rest;
  }

  /** Sorting what is kept gives what is kept of the sorted whole. */
  lemma {:induction false} FilterOfSort<T(!new)>(leq: (T, T) -> bool, keep: T -> bool, s: seq<T>)
    requires TotalPreorder(leq)
    ensures Filter(keep, Sort(leq, s)) == Sort(leq, Filter(keep, s))
  {
    if s != [] {
      FilterOfSort(leq, keep, s[1..]);
      SortIsSorted(leq, s[1..]);
      FilterOfInsert(leq, keep, s[0], Sort(leq, s[1..]));
    }
  }

  lemma MultiplicityOfAPair<T>(items: seq<T>, i: nat, j: nat)
    requires i < j < |items| && items[i] == items[j]
    ensures multiset(items)[items[i]] >= 2
  {
    assert items == items[..i] + [items[i]] + items[i + 1..j] + [items[j]] + items[j + 1..];
  }

  /** A set's elements in some order, each once. */
  method Listed<T(==)>(s: set<T>) returns (listing: seq<T>)
    ensures multiset(listing) == multiset(s)
  {
    listing := [];
    var remaining := s;
    while remaining != {}
      invariant remaining <= s
      invariant multiset(listing) == multiset(s - remaining)
    {
      var x :| x in remaining;
      assert s - (remaining - {x}) == (s - remaining) + {x};
      listing, remaining := listing + [x], remaining - {x};
    }
    assert s - remaining == s;
  }

  ghost predicate Distinct<T>(items: seq<T>) {
    forall i, j :: 0 <= i < j < |items| ==> items[i] != items[j]
  }

  lemma {:induction false} DistinctOccursOnce<T>(items: seq<T>, x: T)
    requires Distinct(items)
    ensures multiset(items)[x] <= 1
  {
    if items != [] {
      var last := |items| - 1;
      DistinctOccursOnce(items[..last], x);
      assert items == items[..last] + [items[last]];
      if x == items[last] {
        assert x !in items[..last];
        assert multiset(items[..last])[x] == 0;
      }
    }
  }

  lemma SomeMember<T>(items: seq<T>) returns (x: T)
    requires items != []
    ensures x in items
  {
    x := items[0];
  }

  lemma {:induction false} FilterKeepsNothing<T>(keep: T -> bool, s: seq<T>)
    requires forall y :: y in s ==> !keep(y)
    ensures Filter(keep, s) == []
  {
    if s != [] {
      assert s[0] in s;
      FilterKeepsNothing(keep, s[1..]);
    }
  }

  /** Of a sorted sequence, what is kept down to some bound is a prefix. */
  lemma {:induction false} KeptIsAPrefix<T>(leq: (T, T) -> bool, keep: T -> bool, s: seq<T>)
    requires Sorted(leq, s) && forall x, y :: leq(x, y) && keep(y) ==> keep(x)
    ensures Filter(keep, s) <= s
  {
    if s != [] {
      TailSorted(leq, s);
      KeptIsAPrefix(leq, keep, s[1..]);
      if !keep(s[0]) {
        FilterKeepsNothing(keep, s[1..]);
      }
    }
  }

  lemma SortedKeptIsAPrefix<T(!new)>(leq: (T, T) -> bool, keep: T -> bool, s: seq<T>)
    requires TotalPreorder(leq) && forall x, y :: leq(x, y) && keep(y) ==> keep(x)
    ensures Sort(leq, Filter(keep, s)) <= Sort(leq, s)
  {
    SortIsSorted(leq, s);
    FilterOfSort(leq, keep, s);
    KeptIsAPrefix(leq, keep, Sort(leq, s));
  }

  lemma {:induction false} AtLeastTheFirstAreKept<T>(keep: T -> bool, s: seq<T>, n: nat)
    requires n <= |s| && forall i :: 0 <= i < n ==> keep(s[i])
    ensures |Filter(keep, s)| >= n
  {
    if n > 0 {
      AtLeastTheFirstAreKept(keep, s[1..], n - 1);
    }
  }

  predicate NoGreater(a: nat, b: nat) {
    a <= b
  }

  /** The elements of a set, sorted, are each there once and ascend. */
  lemma SortedSetIsStrict(s: seq<nat>, listed: set<nat>)
    requires Sorted(NoGreater, s) && multiset(s) == multiset(listed)
    ensures forall i, j :: 0 <= i < j < |s| ==> s[i] < s[j]
    ensures forall h :: h in s <==> h in listed
  {
    assert forall h :: h in s <==> h in multiset(s);
    forall i, j | 0 <= i < j < |s|
      ensures s[i] < s[j]
    {
      assert NoGreater(s[i], s[j]) && multiset(listed)[s[i]] <= 1;
      if s[i] == s[j] {
        MultiplicityOfAPair(s, i, j);
      }
    }
  }

  lemma {:induction false} SubsetIsNoLarger<T>(a: set<T>, b: set<T>)
    requires a <= b
    ensures |a| <= |b|
  {
    if a != {} {
      var x :| x in a;
      SubsetIsNoLarger(a - {x}, b - {x});
    }
  }
}
