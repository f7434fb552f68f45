/**
 * Sorting by a comparator. A listing handler's `.sort({...})` is a lexicographic comparator over
 * record fields; the database returns the matching records in an order that comparator accepts.
 * Ties are left in no particular order, so the specification of a listing is "sorted by the
 * comparator and a permutation of the records", and SortBy is one function that meets it.
 */
module Ordering {

  /** Every pair is ordered one way or the other (ties allowed). */
  ghost predicate Total<T(!new)>(le: (T, T) -> bool) {
    forall a, b :: le(a, b) || le(b, a)
  }

  ghost predicate Transitive<T(!new)>(le: (T, T) -> bool) {
    forall a, b, c :: le(a, b) && le(b, c) ==> le(a, c)
  }

  /** A comparator that orders every pair and is transitive; ties are allowed. */
  ghost predicate TotalPreorder<T(!new)>(le: (T, T) -> bool) {
    Total(le) && Transitive(le)
  }

  predicate SortedBy<T>(s: seq<T>, le: (T, T) -> bool) {
    forall i, j :: 0 <= i < j < |s| ==> le(s[i], s[j])
  }

  /** Puts `x` in front of the first element it may precede. */
  function Insert<T(!new)>(x: T, s: seq<T>, le: (T, T) -> bool): (r: seq<T>)
    requires TotalPreorder(le) && SortedBy(s, le)
    ensures SortedBy(r, le)
    ensures multiset(r) == multiset(s) + multiset{x}
  {
    if s == [] then [x]
    else if le(x, s[0]) then
      PrependSorted(x, s, le);
      [x] + s
    else
      var tail := Insert(x, s[1..], le);
      InsertBehind(x, s, tail, le);
      [s[0]] + tail
  }

  lemma PrependSorted<T(!new)>(x: T, s: seq<T>, le: (T, T) -> bool)
    requires Transitive(le) && SortedBy(s, le) && s != [] && le(x, s[0])
    ensures SortedBy([x] + s, le)
  {
    forall j | 0 < j < |s|
      ensures le(x, s[j])
    {
      assert le(s[0], s[j]);
    }
  }

  lemma InsertBehind<T(!new)>(x: T, s: seq<T>, tail: seq<T>, le: (T, T) -> bool)
    requires Total(le) && SortedBy(s, le) && s != [] && !le(x, s[0])
    requires SortedBy(tail, le) && multiset(tail) == multiset(s[1..]) + multiset{x}
    ensures SortedBy([s[0]] + tail, le)
    ensures multiset([s[0]] + tail) == multiset(s) + multiset{x}
  {
    assert s == [s[0]] + s[1..];
    forall j | 0 <= j < |tail|
      ensures le(s[0], tail[j])
    {
      assert tail[j] in multiset(tail);
      if tail[j] == x {
        assert le(x, s[0]) || le(s[0], x);
      } else {
        assert tail[j] in s[1..];
        var m :| 1 <= m < |s| && s[m] == tail[j];
      }
    }
  }

  /** Insertion sort: a sorted permutation of `s`. */
  function SortBy<T(!new)>(s: seq<T>, le: (T, T) -> bool): (r: seq<T>)
    requires TotalPreorder(le)
    ensures SortedBy(r, le)
    ensures multiset(r) == multiset(s)
  {
    if s == [] then []
    else
      assert s == [s[0]] + s[1..];
      Insert(s[0], SortBy(s[1..], le), le)
  }

  /** Two arrangements of the same elements have the same members and the same length. */
  lemma SameMembers<T>(a: seq<T>, b: seq<T>)
    requires multiset(a) == multiset(b)
    ensures forall x :: x in a <==> x in b
    ensures |a| == |b|
  {
    assert |a| == |multiset(a)|;
    assert forall x :: x in a <==> x in multiset(a);
  }
}
