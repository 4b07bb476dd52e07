/** Sorting the `vehicles` snapshot by arrival stamp. The program calls an
    unstable library sort with the comparator `a.arrivalTime < b.arrivalTime`,
    which promises only a non-decreasing permutation. The model sorts by
    insertion, one admissible outcome; `SortedArrivalsUnique` shows that every
    admissible outcome has the same sequence of arrival stamps. */
module SnapshotSort {
  import opened Vehicles
  import opened Multisets

  /** Non-decreasing by arrival stamp. */
  predicate SortedByArrival(s: seq<Vehicle>) {
    forall i, j :: 0 <= i < j < |s| ==> s[i].arrivalTime <= s[j].arrivalTime
  }

  /** The arrival stamps of `s`, position by position. */
  function Arrivals(s: seq<Vehicle>): (r: seq<int>)
    ensures |r| == |s|
    ensures forall i :: 0 <= i < |s| ==> r[i] == s[i].arrivalTime
  {
    seq(|s|, i requires 0 <= i < |s| => s[i].arrivalTime)
  }

  /** Place `v` into a sorted sequence, before every vehicle whose stamp is
      not smaller. */
  function Insert(v: Vehicle, s: seq<Vehicle>): (r: seq<Vehicle>)
    requires SortedByArrival(s)
    ensures SortedByArrival(r)
    ensures multiset(r) == multiset(s) + multiset{v}
    ensures |r| == |s| + 1
    ensures r[0] == v || (s != [] && r[0] == s[0])
  {
    if s == [] || v.arrivalTime <= s[0].arrivalTime then
      [v] + s
    else
      assert s == [s[0]] + s[1..];
      [s[0]] + Insert(v, s[1..])
  }

  /** The snapshot sorted by arrival stamp. */
  function SortByArrival(s: seq<Vehicle>): (r: seq<Vehicle>)
    ensures SortedByArrival(r)
    ensures multiset(r) == multiset(s)
  {
    if s == [] then []
    else
      assert s == [s[0]] + s[1..];
      Insert(s[0], SortByArrival(s[1..]))
  }

  /** Sorting an already sorted snapshot leaves it as it is. */
  lemma {:induction false} SortSortedIsIdentity(s: seq<Vehicle>)
    requires SortedByArrival(s)
    ensures SortByArrival(s) == s
  {
    if s != [] {
      SortSortedIsIdentity(s[1..]);
      assert s == [s[0]] + s[1..];
    }
  }

  /** Cutting position `k` out of the snapshot takes exactly its stamp out
      of the multiset of stamps. */
  lemma ArrivalsCut(s: seq<Vehicle>, k: nat)
    requires k < |s|
    ensures multiset(Arrivals(s)) ==
            multiset(Arrivals(s[..k] + s[k + 1..])) + multiset{s[k].arrivalTime}
  {
    var xs := Arrivals(s);
    CutMultiset(xs, k);
    assert xs[..k] + xs[k + 1..] == Arrivals(s[..k] + s[k + 1..]);
  }

  /** Two permutations of one another carry the same multiset of stamps. */
  lemma {:induction false} PermutationArrivals(a: seq<Vehicle>, b: seq<Vehicle>)
    requires multiset(a) == multiset(b)
    ensures multiset(Arrivals(a)) == multiset(Arrivals(b))
    decreases |a|
  {
    if a == [] {
      assert |multiset(b)| == 0;
      assert b == [];
    } else {
      var x := a[0];
      assert x in multiset(a);
      assert x in b;
      var k :| 0 <= k < |b| && b[k] == x;
      var a', b' := a[1..], b[..k] + b[k + 1..];
      CutMultiset(b, k);
      assert multiset(b) == multiset(b') + multiset{x};
      assert a == [x] + a';
      assert multiset(a) == multiset(a') + multiset{x};
      MultisetCancel(multiset(a'), multiset(b'), x);
      PermutationArrivals(a', b');
      ArrivalsCut(a, 0);
      assert a[..0] + a[1..] == a';
      ArrivalsCut(b, k);
    }
  }

  /** Non-decreasing integers. */
  predicate NonDecreasing(x: seq<int>) {
    forall i, j :: 0 <= i < j < |x| ==> x[i] <= x[j]
  }

  /** The head of a non-decreasing sequence is at most any of its elements. */
  lemma HeadIsLeast(y: seq<int>, v: int)
    requires NonDecreasing(y)
    requires v in y
    ensures y[0] <= v
  {
    var j :| 0 <= j < |y| && y[j] == v;
    if j > 0 {
      assert y[0] <= y[j];
    }
  }

  /** Dropping the head of a non-decreasing sequence drops that head from its
      multiset and keeps the rest non-decreasing. */
  lemma Uncons(x: seq<int>)
    requires NonDecreasing(x) && x != []
    ensures NonDecreasing(x[1..])
    ensures multiset(x) == multiset(x[1..]) + multiset{x[0]}
  {
    assert x == [x[0]] + x[1..];
  }

  /** Sequences that agree on their head and on their tail are equal. */
  lemma SameHeadSameTail(x: seq<int>, y: seq<int>)
    requires x != [] && y != [] && x[0] == y[0] && x[1..] == y[1..]
    ensures x == y
  {
    assert x == [x[0]] + x[1..];
    assert y == [y[0]] + y[1..];
  }

  /** Non-decreasing integer sequences with the same multiset are equal. */
  lemma {:induction false} SortedIntsUnique(x: seq<int>, y: seq<int>)
    requires NonDecreasing(x) && NonDecreasing(y)
    requires multiset(x) == multiset(y)
    ensures x == y
    decreases |x|
  {
    if x == [] {
      assert |multiset(y)| == 0;
    } else {
      assert |y| == |multiset(y)| == |multiset(x)| == |x|;
      assert x[0] in multiset(y);
      assert y[0] in multiset(x);
      HeadIsLeast(y, x[0]);
      HeadIsLeast(x, y[0]);
      Uncons(x);
      Uncons(y);
      MultisetCancel(multiset(x[1..]), multiset(y[1..]), x[0]);
      SortedIntsUnique(x[1..], y[1..]);
      SameHeadSameTail(x, y);
    }
  }

  /** Every sorted permutation of the snapshot lists the same arrival stamps
      in the same order: which of the equally stamped vehicles comes first is
      the only freedom an unstable sort has. */
  lemma SortedArrivalsUnique(a: seq<Vehicle>, b: seq<Vehicle>)
    requires SortedByArrival(a) && SortedByArrival(b)
    requires multiset(a) == multiset(b)
    ensures Arrivals(a) == Arrivals(b)
  {
    PermutationArrivals(a, b);
    SortedIntsUnique(Arrivals(a), Arrivals(b));
  }

  /** Sorting an already sorted snapshot keeps its sequence of arrival
      stamps: the guarantee any sort, stable or not, gives on such input. */
  lemma SortSortedKeepsArrivals(s: seq<Vehicle>)
    requires SortedByArrival(s)
    ensures Arrivals(SortByArrival(s)) == Arrivals(s)
  {
    SortedArrivalsUnique(SortByArrival(s), s);
  }
}
