/**
 * A stable insertion sort over sequences, parameterised by the "less than or
 * equal" relation of a sort key. Both `sort_values` calls of the transform are
 * modelled with it; their contracts promise only what the key determines:
 * the result is sorted and is a permutation of the input.
 */
module Sorting {

  /** `leq` compares every pair and chains: the order a sort key induces. */
  ghost predicate TotalPreorder<T(!new)>(leq: (T, T) -> bool) {
    && (forall a, b :: leq(a, b) || leq(b, a))
    && (forall a, b, c :: leq(a, b) && leq(b, c) ==> leq(a, c))
  }

  /** Every element is `leq` every later element. */
  ghost predicate SortedBy<T>(s: seq<T>, leq: (T, T) -> bool) {
    forall i, j :: 0 <= i < j < |s| ==> leq(s[i], s[j])
  }

  /** Putting in front an element that is `leq` all others keeps a sequence sorted. */
  lemma ConsSorted<T>(y: T, s: seq<T>, leq: (T, T) -> bool)
    requires SortedBy(s, leq)
    requires forall k :: 0 <= k < |s| ==> leq(y, s[k])
    ensures SortedBy([y] + s, leq)
  {
  }

  /** Whatever is `leq` the head of a sorted sequence is `leq` all of it. */
  lemma LeqHeadLeqAll<T(!new)>(x: T, s: seq<T>, leq: (T, T) -> bool)
    requires TotalPreorder(leq)
    requires SortedBy(s, leq)
    requires s != [] && leq(x, s[0])
    ensures forall k :: 0 <= k < |s| ==> leq(x, s[k])
  {
  }

  /** The head of a sorted sequence is `leq` every element of the sequence its tail and some `x` above it make. */
  lemma HeadLeqInserted<T(!new)>(x: T, s: seq<T>, rest: seq<T>, leq: (T, T) -> bool)
    requires SortedBy(s, leq)
    requires s != [] && leq(s[0], x)
    requires multiset(rest) == multiset(s[1..]) + multiset{x}
    ensures forall k :: 0 <= k < |rest| ==> leq(s[0], rest[k])
  {
    forall k | 0 <= k < |rest|
      ensures leq(s[0], rest[k])
    {
      assert rest[k] in multiset(rest);
      if rest[k] != x {
        assert rest[k] in multiset(s[1..]);
        var m :| 0 <= m < |s[1..]| && s[1..][m] == rest[k];
        assert s[m + 1] == rest[k];
      }
    }
  }

  /** Puts `x` before the first element it is `leq`, so it lands before its equals. */
  function Insert<T(!new)>(x: T, s: seq<T>, leq: (T, T) -> bool): (r: seq<T>)
    requires TotalPreorder(leq)
    requires SortedBy(s, leq)
    ensures SortedBy(r, leq)
    ensures multiset(r) == multiset(s) + multiset{x}
    ensures |r| == |s| + 1
  {
    if s == [] then
      [x]
    else if leq(x, s[0]) then
      LeqHeadLeqAll(x, s, leq);
      ConsSorted(x, s, leq);
      [x] + s
    else
      var rest := Insert(x, s[1..], leq);
      assert s == [s[0]] + s[1..];
      HeadLeqInserted(x, s, rest, leq);
      ConsSorted(s[0], rest, leq);
      [s[0]] + rest
  }

  /** Sorts by inserting each element, last first, into the sorted rest. */
  function InsertionSort<T(!new)>(s: seq<T>, leq: (T, T) -> bool): (r: seq<T>)
    requires TotalPreorder(leq)
    ensures SortedBy(r, leq)
    ensures multiset(r) == multiset(s)
    ensures |r| == |s|
  {
    if s == [] then
      []
    else
      assert s == [s[0]] + s[1..];
      Insert(s[0], InsertionSort(s[1..], leq), leq)
  }
}
