/** Filtering and stable sorting of sequences under a comparator.

    A comparator is given as `leq(a, b)`, which stands for "compare(a, b) <= 0". JavaScript's
    `Array.prototype.sort` and Python's `sorted` are stable, so a sort call is `StableSort`. */
module Ordering {

  ghost predicate TotalPreorder<T(!new)>(leq: (T, T) -> bool) {
    && (forall a, b :: leq(a, b) || leq(b, a))
    && (forall a, b, c :: leq(a, b) && leq(b, c) ==> leq(a, c))
  }

  ghost predicate Antisymmetric<T(!new)>(leq: (T, T) -> bool) {
    forall a, b :: leq(a, b) && leq(b, a) ==> a == b
  }

  ghost predicate TotalOrder<T(!new)>(leq: (T, T) -> bool) {
    TotalPreorder(leq) && Antisymmetric(leq)
  }

  ghost predicate Sorted<T>(leq: (T, T) -> bool, s: seq<T>) {
    forall i, j :: 0 <= i < j < |s| ==> leq(s[i], s[j])
  }

  ghost predicate NoDuplicates<T>(s: seq<T>) {
    forall i, j :: 0 <= i < j < |s| ==> s[i] != s[j]
  }

  function Filter<T>(p: T -> bool, s: seq<T>): seq<T> {
    if s == [] then [] else (if p(s[0]) then [s[0]] else []) + Filter(p, s[1..])
  }

  /** The elements that the comparator cannot tell from `z`. */
  function TiedWith<T>(leq: (T, T) -> bool, z: T): T -> bool {
    x => leq(x, z) && leq(z, x)
  }

  /** Puts `x` in front of every element it may precede: earlier elements win ties. */
  function Insert<T>(leq: (T, T) -> bool, x: T, s: seq<T>): seq<T> {
    if s == [] || leq(x, s[0]) then [x] + s else [s[0]] + Insert(leq, x, s[1..])
  }

  function StableSort<T>(leq: (T, T) -> bool, s: seq<T>): seq<T> {
    if s == [] then [] else Insert(leq, s[0], StableSort(leq, s[1..]))
  }

  lemma ConcatAssociative<T>(a: seq<T>, b: seq<T>, c: seq<T>)
    ensures a + b + c == a + (b + c)
  {}

  lemma {:induction false} FilterConcat<T>(p: T -> bool, a: seq<T>, b: seq<T>)
    ensures Filter(p, a + b) == Filter(p, a) + Filter(p, b)
  {
    if a == [] {
      assert a + b == b;
    } else {
      assert (a + b)[0] == a[0] && (a + b)[1..] == a[1..] + b;
      FilterConcat(p, a[1..], b);
      ConcatAssociative(if p(a[0]) then [a[0]] else [], Filter(p, a[1..]), Filter(p, b));
    }
  }

  lemma {:induction false} FilterMembers<T>(p: T -> bool, s: seq<T>)
    ensures forall x :: x in Filter(p, s) <==> x in s && p(x)
  {
    if s != [] {
      FilterMembers(p, s[1..]);
      assert s == [s[0]] + s[1..];
    }
  }

  lemma {:induction false} FilterEverything<T>(p: T -> bool, s: seq<T>)
    requires forall x :: x in s ==> p(x)
    ensures Filter(p, s) == s
  {
    if s != [] {
      FilterEverything(p, s[1..]);
    }
  }

  lemma {:induction false} FilterNothing<T>(p: T -> bool, s: seq<T>)
    requires forall x :: x in s ==> !p(x)
    ensures Filter(p, s) == []
  {
    if s != [] {
      FilterNothing(p, s[1..]);
    }
  }

  lemma {:induction false} FilterFilter<T>(p: T -> bool, q: T -> bool, s: seq<T>)
    requires forall x :: p(x) ==> q(x)
    ensures Filter(p, Filter(q, s)) == Filter(p, s)
  {
    if s != [] {
      FilterFilter(p, q, s[1..]);
      FilterConcat(p, if q(s[0]) then [s[0]] else [], Filter(q, s[1..]));
    }
  }

  lemma {:induction false} FilterNoDuplicates<T>(p: T -> bool, s: seq<T>)
    requires NoDuplicates(s)
    ensures NoDuplicates(Filter(p, s))
  {
    if s != [] {
      FilterNoDuplicates(p, s[1..]);
      FilterMembers(p, s[1..]);
    }
  }

  lemma {:induction false} InsertMultiset<T>(leq: (T, T) -> bool, x: T, s: seq<T>)
    ensures multiset(Insert(leq, x, s)) == multiset(s) + multiset{x}
  {
    if s == [] || leq(x, s[0]) {
    } else {
      InsertMultiset(leq, x, s[1..]);
      assert s == [s[0]] + s[1..];
    }
  }

  lemma {:induction false} SortMultiset<T>(leq: (T, T) -> bool, s: seq<T>)
    ensures multiset(StableSort(leq, s)) == multiset(s)
    ensures |StableSort(leq, s)| == |s|
  {
    if s != [] {
      SortMultiset(leq, s[1..]);
      InsertMultiset(leq, s[0], StableSort(leq, s[1..]));
      assert s == [s[0]] + s[1..];
      assert |multiset(StableSort(leq, s))| == |multiset(s)|;
    }
  }

  lemma SortMembers<T>(leq: (T, T) -> bool, s: seq<T>)
    ensures forall x :: x in StableSort(leq, s) <==> x in s
  {
    SortMultiset(leq, s);
    forall x ensures x in StableSort(leq, s) <==> x in s {
      assert x in multiset(StableSort(leq, s)) <==> x in multiset(s);
    }
  }

  lemma {:induction false} InsertSorted<T(!new)>(leq: (T, T) -> bool, x: T, s: seq<T>)
    requires TotalPreorder(leq) && Sorted(leq, s)
    ensures Sorted(leq, Insert(leq, x, s))
  {
    if s == [] || leq(x, s[0]) {
    } else {
      InsertSorted(leq, x, s[1..]);
      InsertMultiset(leq, x, s[1..]);
      var rest := Insert(leq, x, s[1..]);
      forall y | y in rest ensures leq(s[0], y) {
        assert y in multiset(rest);
        assert y == x || y in s[1..];
      }
    }
  }

  lemma {:induction false} SortSorted<T(!new)>(leq: (T, T) -> bool, s: seq<T>)
    requires TotalPreorder(leq)
    ensures Sorted(leq, StableSort(leq, s))
  {
    if s != [] {
      SortSorted(leq, s[1..]);
      InsertSorted(leq, s[0], StableSort(leq, s[1..]));
    }
  }

  /** Sorting a sequence that is already in order changes nothing. */
  lemma {:induction false} SortOfSorted<T>(leq: (T, T) -> bool, s: seq<T>)
    requires Sorted(leq, s)
    ensures StableSort(leq, s) == s
  {
    if s != [] {
      SortOfSorted(leq, s[1..]);
      assert |s| > 1 ==> leq(s[0], s[1]);
      assert s == [s[0]] + s[1..];
    }
  }

  lemma {:induction false} FilterInsert<T(!new)>(leq: (T, T) -> bool, p: T -> bool, x: T, s: seq<T>)
    requires TotalPreorder(leq) && Sorted(leq, s)
    ensures Filter(p, Insert(leq, x, s)) == if p(x) then Insert(leq, x, Filter(p, s)) else Filter(p, s)
  {
    if s == [] {
    } else if leq(x, s[0]) {
      assert ([x] + s)[1..] == s;
      var kept := Filter(p, s);
      if kept != [] {
        FilterMembers(p, s);
        assert kept[0] in s;
        assert leq(s[0], kept[0]) by {
          var i :| 0 <= i < |s| && s[i] == kept[0];
          assert i == 0 || leq(s[0], s[i]);
          assert leq(s[0], s[0]);
        }
        assert leq(x, kept[0]);
      }
    } else {
      FilterInsert(leq, p, x, s[1..]);
      var t := Insert(leq, x, s);
      assert t[0] == s[0] && t[1..] == Insert(leq, x, s[1..]);
      var rest := Filter(p, s[1..]);
      if p(s[0]) {
        assert Filter(p, s) == [s[0]] + rest;
        assert Insert(leq, x, [s[0]] + rest) == [s[0]] + Insert(leq, x, ([s[0]] + rest)[1..]);
        assert ([s[0]] + rest)[1..] == rest;
      } else {
        assert Filter(p, s) == rest && Filter(p, t) == Filter(p, t[1..]);
      }
    }
  }

  /** Dropping elements commutes with sorting: the order of the ones that stay does not depend on
      the ones that leave. */
  lemma {:induction false} FilterSort<T(!new)>(leq: (T, T) -> bool, p: T -> bool, s: seq<T>)
    requires TotalPreorder(leq)
    ensures Filter(p, StableSort(leq, s)) == StableSort(leq, Filter(p, s))
  {
    if s != [] {
      FilterSort(leq, p, s[1..]);
      SortSorted(leq, s[1..]);
      FilterInsert(leq, p, s[0], StableSort(leq, s[1..]));
      if p(s[0]) {
        assert Filter(p, s)[1..] == Filter(p, s[1..]);
      } else {
        assert Filter(p, s) == Filter(p, s[1..]);
      }
    }
  }

  /** Stability: the elements tied with `z` come out in the order in which they went in. */
  lemma SortStable<T(!new)>(leq: (T, T) -> bool, z: T, s: seq<T>)
    requires TotalPreorder(leq)
    ensures Filter(TiedWith(leq, z), StableSort(leq, s)) == Filter(TiedWith(leq, z), s)
  {
    var p := TiedWith(leq, z);
    FilterSort(leq, p, s);
    FilterMembers(p, s);
    var kept := Filter(p, s);
    forall i, j | 0 <= i < j < |kept| ensures leq(kept[i], kept[j]) {
      assert kept[i] in kept && kept[j] in kept;
    }
    SortOfSorted(leq, kept);
  }

  lemma HeadsTied<T(!new)>(leq: (T, T) -> bool, a: seq<T>, b: seq<T>)
    requires TotalPreorder(leq) && Sorted(leq, a) && Sorted(leq, b)
    requires forall z :: Filter(TiedWith(leq, z), a) == Filter(TiedWith(leq, z), b)
    requires a != []
    ensures b != [] && leq(b[0], a[0])
  {
    var p := TiedWith(leq, a[0]);
    FilterMembers(p, a);
    FilterMembers(p, b);
    assert leq(a[0], a[0]);
    assert a[0] in Filter(p, b);
    var i :| 0 <= i < |b| && b[i] == a[0];
    assert i == 0 || leq(b[0], b[i]);
  }

  /** A sorted sequence is determined by the subsequences of its tied elements. */
  lemma {:induction false} SortedDeterminedByTies<T(!new)>(leq: (T, T) -> bool, a: seq<T>, b: seq<T>)
    requires TotalPreorder(leq) && Sorted(leq, a) && Sorted(leq, b)
    requires forall z :: Filter(TiedWith(leq, z), a) == Filter(TiedWith(leq, z), b)
    ensures a == b
  {
    if a == [] {
      if b != [] {
        HeadsTied(leq, b, a);
      }
    } else {
      HeadsTied(leq, a, b);
      HeadsTied(leq, b, a);
      var p := TiedWith(leq, a[0]);
      assert leq(a[0], a[0]);
      assert Filter(p, a)[0] == a[0] && Filter(p, b)[0] == b[0];
      forall z ensures Filter(TiedWith(leq, z), a[1..]) == Filter(TiedWith(leq, z), b[1..]) {
        var q := TiedWith(leq, z);
        assert Filter(q, a) == Filter(q, b);
        if q(a[0]) {
          assert Filter(q, a)[1..] == Filter(q, a[1..]);
          assert Filter(q, b)[1..] == Filter(q, b[1..]);
        } else {
          assert Filter(q, a) == Filter(q, a[1..]);
          assert Filter(q, b) == Filter(q, b[1..]);
        }
      }
      SortedDeterminedByTies(leq, a[1..], b[1..]);
      assert a == [a[0]] + a[1..] && b == [b[0]] + b[1..];
    }
  }

  /** Two inputs whose tied elements come in the same order sort to the same output. */
  lemma SortDeterminedByTies<T(!new)>(leq: (T, T) -> bool, a: seq<T>, b: seq<T>)
    requires TotalPreorder(leq)
    requires forall z :: Filter(TiedWith(leq, z), a) == Filter(TiedWith(leq, z), b)
    ensures StableSort(leq, a) == StableSort(leq, b)
  {
    SortSorted(leq, a);
    SortSorted(leq, b);
    forall z ensures Filter(TiedWith(leq, z), StableSort(leq, a)) == Filter(TiedWith(leq, z), StableSort(leq, b)) {
      SortStable(leq, z, a);
      SortStable(leq, z, b);
    }
    SortedDeterminedByTies(leq, StableSort(leq, a), StableSort(leq, b));
  }

  lemma NoMembers<T>(s: seq<T>)
    ensures s == [] || exists x :: x in s
  {
    if s != [] { assert s[0] in s; }
  }

  lemma HeadLeast<T>(leq: (T, T) -> bool, s: seq<T>, x: T)
    requires Sorted(leq, s) && x in s
    ensures x == s[0] || leq(s[0], x)
  {
    var i :| 0 <= i < |s| && s[i] == x;
  }

  /** Two tied elements come out in the order in which they went in, so swapping them shows. */
  lemma TiedSwapped<T(!new)>(leq: (T, T) -> bool, x: T, y: T, rest: seq<T>)
    requires TotalPreorder(leq) && x != y && TiedWith(leq, y)(x)
    ensures StableSort(leq, [x, y] + rest) != StableSort(leq, [y, x] + rest)
  {
    var p, a, b := TiedWith(leq, y), [x, y] + rest, [y, x] + rest;
    assert leq(y, y) && p(x) && p(y);
    SortStable(leq, y, a);
    SortStable(leq, y, b);
    assert a[0] == x && b[0] == y;
    assert Filter(p, a)[0] == x && Filter(p, b)[0] == y;
  }

  /** Without ties, a sorted sequence without duplicates is determined by its set of elements. */
  lemma {:induction false} SortedDeterminedBySet<T(!new)>(leq: (T, T) -> bool, a: seq<T>, b: seq<T>)
    requires Sorted(leq, a) && Sorted(leq, b) && NoDuplicates(a) && NoDuplicates(b)
    requires forall x :: x in a <==> x in b
    requires forall x, y :: x in a && y in a && leq(x, y) && leq(y, x) ==> x == y
    ensures a == b
  {
    if a == [] {
      NoMembers(b);
    } else {
      assert a[0] in b && b[0] in a;
      HeadLeast(leq, a, b[0]);
      HeadLeast(leq, b, a[0]);
      assert a == [a[0]] + a[1..] && b == [b[0]] + b[1..];
      forall x ensures x in a[1..] <==> x in b[1..] {
        assert x in a <==> x == a[0] || x in a[1..];
        assert x in b <==> x == b[0] || x in b[1..];
        assert a[0] !in a[1..] && b[0] !in b[1..];
      }
      SortedDeterminedBySet(leq, a[1..], b[1..]);
    }
  }

  lemma TailBag<T>(s: seq<T>)
    requires s != []
    ensures multiset(s[1..]) == multiset(s) - multiset{s[0]} && s == [s[0]] + s[1..]
    ensures forall x :: x in s[1..] ==> x in s
  {
    assert s == [s[0]] + s[1..];
  }

  lemma BagHeads<T(!new)>(leq: (T, T) -> bool, a: seq<T>, b: seq<T>)
    requires Sorted(leq, a) && Sorted(leq, b) && multiset(a) == multiset(b) && a != [] && b != []
    requires forall x, y :: x in a && y in a && leq(x, y) && leq(y, x) ==> x == y
    ensures a[0] == b[0]
  {
    assert b[0] in multiset(b) && a[0] in multiset(a);
    HeadLeast(leq, a, b[0]);
    HeadLeast(leq, b, a[0]);
  }

  /** The same for sequences with repeated elements. */
  lemma {:induction false} SortedDeterminedByBag<T(!new)>(leq: (T, T) -> bool, a: seq<T>, b: seq<T>)
    requires Sorted(leq, a) && Sorted(leq, b) && multiset(a) == multiset(b)
    requires forall x, y :: x in a && y in a && leq(x, y) && leq(y, x) ==> x == y
    ensures a == b
    decreases |a|
  {
    assert |a| == |multiset(a)| == |multiset(b)| == |b|;
    if a != [] {
      BagHeads(leq, a, b);
      TailBag(a);
      TailBag(b);
      SortedDeterminedByBag(leq, a[1..], b[1..]);
    }
  }

  /** Two enumerations of one set. */
  lemma {:induction false} SameSetSameBag<T(!new)>(a: seq<T>, b: seq<T>)
    requires NoDuplicates(a) && NoDuplicates(b) && forall x :: x in a <==> x in b
    ensures multiset(a) == multiset(b)
  {
    forall x ensures multiset(a)[x] == multiset(b)[x] {
      if x in a {
        CountOne(a, x);
        CountOne(b, x);
      } else {
        assert x !in multiset(a) && x !in multiset(b);
      }
    }
  }

  lemma SortNoDuplicates<T>(leq: (T, T) -> bool, s: seq<T>)
    requires NoDuplicates(s)
    ensures NoDuplicates(StableSort(leq, s))
  {
    SortMultiset(leq, s);
    var t := StableSort(leq, s);
    forall x | x in s ensures multiset(s)[x] == 1 {
      CountOne(s, x);
    }
    forall i, j | 0 <= i < j < |t| ensures t[i] != t[j] {
      CountTwo(t, i, j);
      assert t[i] in multiset(t);
    }
  }

  lemma CountTwo<T>(s: seq<T>, i: nat, j: nat)
    requires i < j < |s|
    ensures s[i] == s[j] ==> multiset(s)[s[i]] >= 2
  {
    assert s == s[..i] + [s[i]] + s[i + 1..j] + [s[j]] + s[j + 1..];
    assert multiset(s) == multiset(s[..i]) + multiset{s[i]} + multiset(s[i + 1..j]) + multiset{s[j]} + multiset(s[j + 1..]);
  }

  lemma {:induction false} CountOne<T>(s: seq<T>, x: T)
    requires NoDuplicates(s) && x in s
    ensures multiset(s)[x] == 1
  {
    var i :| 0 <= i < |s| && s[i] == x;
    assert s == s[..i] + [x] + s[i + 1..];
    assert x !in s[..i] && x !in s[i + 1..];
    assert multiset(s) == multiset(s[..i]) + multiset{x} + multiset(s[i + 1..]);
  }
}
