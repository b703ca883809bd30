/** Go's sorts by a string key, stable, with the uniqueness that makes map order irrelevant. */
module Sorting {
  import opened Strings

  function Insert<T(==)>(key: T -> string, a: T, sorted: seq<T>): (r: seq<T>)
    ensures multiset(r) == multiset(sorted) + multiset{a}
  {
    if sorted == [] || Less(key(a), key(sorted[0])) then [a] + sorted
    else
      assert sorted == [sorted[0]] + sorted[1..];
      [sorted[0]] + Insert(key, a, sorted[1..])
  }

  function SortBy<T(==)>(key: T -> string, list: seq<T>): (r: seq<T>)
    ensures multiset(r) == multiset(list)
  {
    if list == [] then []
    else
      assert list == list[..|list| - 1] + [list[|list| - 1]];
      Insert(key, list[|list| - 1], SortBy(key, list[..|list| - 1]))
  }

  predicate Sorted<T>(key: T -> string, list: seq<T>) {
    forall i, j | 0 <= i < j < |list| :: !Less(key(list[j]), key(list[i]))
  }

  predicate DistinctKeys<T>(key: T -> string, list: seq<T>) {
    forall i, j | 0 <= i < j < |list| :: key(list[i]) != key(list[j])
  }

  lemma {:induction false} InsertSorted<T>(key: T -> string, a: T, sorted: seq<T>)
    requires Sorted(key, sorted)
    ensures Sorted(key, Insert(key, a, sorted))
  {
    if sorted != [] {
      if Less(key(a), key(sorted[0])) {
        forall j | 0 <= j < |sorted| ensures !Less(key(sorted[j]), key(a)) {
          LessOrders(key(sorted[j]), key(a), key(sorted[0]));
        }
      } else {
        InsertSorted(key, a, sorted[1..]);
        var rest := Insert(key, a, sorted[1..]);
        forall x | x in rest ensures !Less(key(x), key(sorted[0])) {
          assert x in multiset(rest);
          assert x == a || x in sorted[1..];
        }
      }
    }
  }

  lemma {:induction false} SortSorts<T>(key: T -> string, list: seq<T>)
    ensures Sorted(key, SortBy(key, list))
    decreases |list|
  {
    if list != [] {
      SortSorts(key, list[..|list| - 1]);
      InsertSorted(key, list[|list| - 1], SortBy(key, list[..|list| - 1]));
    }
  }

  lemma SameMembers<T>(a: seq<T>, b: seq<T>)
    requires multiset(a) == multiset(b)
    ensures forall x :: x in a <==> x in b
    ensures |a| == |b|
  {
    forall x ensures x in a <==> x in b {
      assert x in a <==> x in multiset(a);
      assert x in b <==> x in multiset(b);
    }
    assert |multiset(a)| == |a| && |multiset(b)| == |b|;
  }

  lemma HeadsEqual<T>(key: T -> string, a: seq<T>, b: seq<T>)
    requires multiset(a) == multiset(b) && Sorted(key, a) && Sorted(key, b) && DistinctKeys(key, a) && a != []
    ensures b != [] && a[0] == b[0]
  {
    SameMembers(a, b);
    assert b[0] in a && a[0] in b;
    var i :| 0 <= i < |a| && a[i] == b[0];
    var j :| 0 <= j < |b| && b[j] == a[0];
    LessOrders(key(a[0]), key(b[0]), key(a[0]));
    assert !Less(key(b[j]), key(b[0])) && !Less(key(a[i]), key(a[0]));
  }

  lemma TailOf<T>(key: T -> string, a: seq<T>)
    requires a != [] && Sorted(key, a) && DistinctKeys(key, a)
    ensures Sorted(key, a[1..]) && DistinctKeys(key, a[1..])
  {
  }

  lemma TailCounts<T>(a: seq<T>)
    requires a != []
    ensures multiset(a[1..]) == multiset(a) - multiset{a[0]}
  {
    assert a == [a[0]] + a[1..];
  }

  /** With distinct keys there is only one sorted order. */
  lemma {:induction false} SortedUnique<T>(key: T -> string, a: seq<T>, b: seq<T>)
    requires multiset(a) == multiset(b) && Sorted(key, a) && Sorted(key, b)
    requires DistinctKeys(key, a) && DistinctKeys(key, b)
    ensures a == b
    decreases |a|
  {
    SameMembers(a, b);
    if a != [] {
      HeadsEqual(key, a, b);
      TailOf(key, a);
      TailOf(key, b);
      TailCounts(a);
      TailCounts(b);
      SortedUnique(key, a[1..], b[1..]);
    }
  }

  lemma {:induction false} DistinctCountsOne<T>(key: T -> string, a: seq<T>)
    requires DistinctKeys(key, a)
    ensures forall x | x in multiset(a) :: multiset(a)[x] == 1
  {
    if a != [] {
      var init, last := a[..|a| - 1], a[|a| - 1];
      assert a == init + [last];
      DistinctCountsOne(key, init);
      assert last !in init;
      assert last !in multiset(init);
    }
  }

  lemma TwiceCounted<T>(s: seq<T>, i: nat, j: nat)
    requires i < j < |s| && s[i] == s[j]
    ensures multiset(s)[s[i]] >= 2
  {
    assert s == s[..j] + s[j..];
    assert s[i] in s[..j] && s[j] in s[j..];
    assert s[i] in multiset(s[..j]) && s[i] in multiset(s[j..]);
  }

  /** Reordering keeps the keys distinct. */
  lemma PermutedDistinct<T>(key: T -> string, a: seq<T>, b: seq<T>)
    requires DistinctKeys(key, a) && multiset(a) == multiset(b)
    ensures DistinctKeys(key, b)
  {
    SameMembers(a, b);
    forall i, j | 0 <= i < j < |b| ensures key(b[i]) != key(b[j]) {
      if b[i] == b[j] {
        DistinctCountsOne(key, a);
        TwiceCounted(b, i, j);
      } else {
        assert b[i] in a && b[j] in a;
      }
    }
  }

  /** Sorting forgets the order its input came in. */
  lemma SortOrderIndependent<T>(key: T -> string, a: seq<T>, b: seq<T>)
    requires DistinctKeys(key, a) && multiset(a) == multiset(b)
    ensures SortBy(key, a) == SortBy(key, b)
    ensures Sorted(key, SortBy(key, a)) && DistinctKeys(key, SortBy(key, a))
  {
    var s, t := SortBy(key, a), SortBy(key, b);
    SortSorts(key, a);
    SortSorts(key, b);
    PermutedDistinct(key, a, s);
    PermutedDistinct(key, a, t);
    SortedUnique(key, s, t);
  }
}
