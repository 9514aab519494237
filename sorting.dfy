/** An insertion sort by a caller-supplied "comes no later than" relation:
    the ordering behind `orderBy(...)` on a query and PHP 8's stable `usort`.
    Each element goes in front of the equal elements that follow it, as a
    stable sort places them; what is proved is that the result is an ordered
    permutation and that already ordered input comes back unchanged. */
module Sorting {

  /** s is ordered by le. */
  predicate Sorted<T>(s: seq<T>, le: (T, T) -> bool) {
    forall i, j :: 0 <= i < j < |s| ==> le(s[i], s[j])
  }

  /** le is a total preorder: any two elements compare, and comparison
      chains. */
  ghost predicate TotalPreorder<T(!new)>(le: (T, T) -> bool) {
    (forall a, b :: le(a, b) || le(b, a)) &&
    (forall a, b, c :: le(a, b) && le(b, c) ==> le(a, c))
  }

  /** Insert x in front of the first element it comes no later than. */
  function Insert<T>(x: T, s: seq<T>, le: (T, T) -> bool): (r: seq<T>)
    ensures |r| == |s| + 1
    ensures multiset(r) == multiset{x} + multiset(s)
    decreases |s|
  {
    if s == [] then [x]
    else if le(x, s[0]) then [x] + s
    else
      assert s == [s[0]] + s[1..];
      [s[0]] + Insert(x, s[1..], le)
  }

  /** Insertion sort from the back: each element goes in front of the sorted
      rest at the first place it fits. */
  function SortBy<T>(s: seq<T>, le: (T, T) -> bool): (r: seq<T>)
    decreases |s|
  {
    if s == [] then [] else Insert(s[0], SortBy(s[1..], le), le)
  }

  /** Sorting permutes its input. */
  lemma {:induction false} SortByPermutes<T>(s: seq<T>, le: (T, T) -> bool)
    ensures multiset(SortBy(s, le)) == multiset(s)
    ensures |SortBy(s, le)| == |s|
    decreases |s|
  {
    if s != [] {
      SortByPermutes(s[1..], le);
      assert s == [s[0]] + s[1..];
    }
  }

  /** Dropping the first element keeps the order. */
  lemma SortedTail<T>(s: seq<T>, le: (T, T) -> bool)
    requires Sorted(s, le) && s != []
    ensures Sorted(s[1..], le)
  {
    forall i, j | 0 <= i < j < |s[1..]| ensures le(s[1..][i], s[1..][j]) {
      assert s[1..][i] == s[i + 1] && s[1..][j] == s[j + 1];
    }
  }

  /** An element that comes no later than every element of an ordered
      sequence can go in front of it. */
  lemma ConsSorted<T>(a: T, r: seq<T>, le: (T, T) -> bool)
    requires Sorted(r, le) && forall j :: 0 <= j < |r| ==> le(a, r[j])
    ensures Sorted([a] + r, le)
  {
    var t := [a] + r;
    forall i, j | 0 <= i < j < |t| ensures le(t[i], t[j]) {
      assert t[j] == r[j - 1];
      if i > 0 {
        assert t[i] == r[i - 1];
      }
    }
  }

  /** Inserting into an ordered sequence keeps it ordered and adds only x. */
  lemma {:induction false} InsertSorted<T(!new)>(x: T, s: seq<T>, le: (T, T) -> bool)
    requires TotalPreorder(le) && Sorted(s, le)
    ensures Sorted(Insert(x, s, le), le)
    ensures forall i :: 0 <= i < |Insert(x, s, le)| ==> Insert(x, s, le)[i] == x || Insert(x, s, le)[i] in s
    decreases |s|
  {
    if s == [] {
      assert Insert(x, s, le) == [x];
    } else if le(x, s[0]) {
      assert Insert(x, s, le) == [x] + s;
      forall j | 0 <= j < |s| ensures le(x, s[j]) {
        if j > 0 {
          assert le(s[0], s[j]);
        }
      }
      ConsSorted(x, s, le);
    } else {
      var rest := Insert(x, s[1..], le);
      SortedTail(s, le);
      InsertSorted(x, s[1..], le);
      assert Insert(x, s, le) == [s[0]] + rest;
      assert le(s[0], x);
      forall j | 0 <= j < |rest| ensures le(s[0], rest[j]) {
        if rest[j] != x {
          var k :| 0 <= k < |s[1..]| && s[1..][k] == rest[j];
          assert le(s[0], s[k + 1]);
        }
      }
      ConsSorted(s[0], rest, le);
      forall i | 0 <= i < |rest| ensures rest[i] == x || rest[i] in s {
        if rest[i] != x {
          assert rest[i] in s[1..];
        }
      }
    }
  }

  /** For a total preorder the result is ordered. */
  lemma {:induction false} SortBySorted<T(!new)>(s: seq<T>, le: (T, T) -> bool)
    requires TotalPreorder(le)
    ensures Sorted(SortBy(s, le), le)
    decreases |s|
  {
    if s != [] {
      SortBySorted(s[1..], le);
      InsertSorted(s[0], SortBy(s[1..], le), le);
    }
  }

  /** Input that is already ordered comes back unchanged, so sorting is
      idempotent. */
  lemma {:induction false} SortBySortedIdentity<T>(s: seq<T>, le: (T, T) -> bool)
    requires Sorted(s, le)
    ensures SortBy(s, le) == s
    decreases |s|
  {
    if s != [] {
      SortedTail(s, le);
      SortBySortedIdentity(s[1..], le);
      if |s| > 1 {
        assert le(s[0], s[1]);
      }
      assert [s[0]] + s[1..] == s;
    }
  }
}
