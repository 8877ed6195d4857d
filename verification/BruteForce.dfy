/** Sorting of reals. */
module RealSorting {

  predicate Ascending(s: seq<real>) {
    forall i, j :: 0 <= i < j < |s| ==> s[i] <= s[j]
  }

  function InsertReal(x: real, s: seq<real>): (r: seq<real>)
    ensures multiset(r) == multiset(s) + multiset{x}
  {
    if s == [] || x <= s[0] then [x] + s
    else
      assert s == [s[0]] + s[1..];
      [s[0]] + InsertReal(x, s[1..])
  }

  /** The values in ascending order. */
  function SortReals(s: seq<real>): (r: seq<real>)
    ensures multiset(r) == multiset(s)
  {
    if s == [] then []
    else
      assert s == [s[0]] + s[1..];
      InsertReal(s[0], SortReals(s[1..]))
  }

  lemma {:induction false} InsertRealAscending(x: real, s: seq<real>)
    requires Ascending(s)
    ensures Ascending(InsertReal(x, s))
  {
    if s != [] && x > s[0] {
      InsertRealAscending(x, s[1..]);
      var r := InsertReal(x, s[1..]);
      forall k | 0 <= k < |r|
        ensures s[0] <= r[k]
      {
        assert r[k] in multiset(r);
        if r[k] != x {
          assert r[k] in s[1..];
        }
      }
    }
  }

  lemma {:induction false} SortRealsAscending(s: seq<real>)
    ensures Ascending(SortReals(s)) && |SortReals(s)| == |s|
  {
    if s != [] {
      SortRealsAscending(s[1..]);
      InsertRealAscending(s[0], SortReals(s[1..]));
      assert |multiset(SortReals(s))| == |multiset(s)|;
    }
  }

  lemma LeastIsHead(s: seq<real>, x: real)
    requires Ascending(s) && x in multiset(s)
    ensures s != [] && s[0] <= x
  {
    assert x in s;
  }

  lemma TailMultiset(s: seq<real>)
    requires s != []
    ensures multiset(s[1..]) == multiset(s) - multiset{s[0]}
  {
    assert s == [s[0]] + s[1..];
  }

  lemma SameSize(s: seq<real>, t: seq<real>)
    requires multiset(s) == multiset(t)
    ensures |s| == |t|
  {
    assert |multiset(s)| == |s| && |multiset(t)| == |t|;
  }

  lemma SameHead(s: seq<real>, t: seq<real>)
    requires Ascending(s) && Ascending(t) && multiset(s) == multiset(t) && s != [] && t != []
    ensures s[0] == t[0]
  {
    assert s[0] in s && t[0] in t;
    LeastIsHead(s, t[0]);
    LeastIsHead(t, s[0]);
  }

  /** Ascending order is unique. */
  lemma {:induction false} AscendingUnique(s: seq<real>, t: seq<real>)
    requires Ascending(s) && Ascending(t) && multiset(s) == multiset(t)
    ensures s == t
  {
    SameSize(s, t);
    if s != [] {
      SameHead(s, t);
      TailMultiset(s);
      TailMultiset(t);
      AscendingTail(s);
      AscendingTail(t);
      AscendingUnique(s[1..], t[1..]);
      assert s == [s[0]] + s[1..];
      assert t == [t[0]] + t[1..];
    }
  }

  /** Sorting forgets the original order. */
  lemma SortedAlike(a: seq<real>, b: seq<real>)
    requires multiset(a) == multiset(b)
    ensures SortReals(a) == SortReals(b) && |a| == |b|
  {
    hide SortReals, Ascending;
    SameSize(a, b);
    SortRealsAscending(a);
    SortRealsAscending(b);
    var sa, sb := SortReals(a), SortReals(b);
    AscendingUnique(sa, sb);
  }

  lemma AscendingTail(s: seq<real>)
    requires Ascending(s) && s != []
    ensures Ascending(s[1..])
  {
  }
}

/** The brute-force nearest-neighbour oracle. */
module BruteForce {
  import opened RealSorting

  ghost predicate IsPermutation(order: seq<nat>, n: nat) {
    && |order| == n
    && (forall k :: 0 <= k < n ==> order[k] < n)
    && (forall j, k :: 0 <= j < k < n ==> order[j] != order[k])
    && (forall i: nat :: i < n ==> i in order)
  }

  lemma PermutationBounds(order: seq<nat>, n: nat)
    requires IsPermutation(order, n)
    ensures |order| == n && forall k :: 0 <= k < n ==> order[k] < n
  {
  }

  function At(ds: seq<real>, order: seq<nat>): (r: seq<real>)
    requires forall k :: 0 <= k < |order| ==> order[k] < |ds|
    ensures |r| == |order| && forall k :: 0 <= k < |order| ==> r[k] == ds[order[k]]
  {
    seq(|order|, k requires 0 <= k < |order| => ds[order[k]])
  }

  /** Without its greatest index, a permutation of `0..n` is one of `0..n-1`. */
  lemma DropLast(order: seq<nat>, n: nat) returns (k: nat, rest: seq<nat>)
    requires IsPermutation(order, n) && n > 0
    ensures k < n && |order| == n && order[k] == n - 1
    ensures IsPermutation(rest, n - 1) && rest == order[..k] + order[k + 1..]
    ensures forall j {:trigger rest[j]} :: 0 <= j < n - 1 ==> rest[j] == if j < k then order[j] else order[j + 1]
  {
    var last: nat := n - 1;
    assert last in order;
    k :| 0 <= k < n && order[k] == last;
    rest := order[..k] + order[k + 1..];
    DropKeeps(order, n, k, rest);
  }

  lemma DropKeeps(order: seq<nat>, n: nat, k: nat, rest: seq<nat>)
    requires IsPermutation(order, n) && k < n && order[k] == n - 1 && |rest| == n - 1
    requires forall j {:trigger rest[j]} :: 0 <= j < n - 1 ==> rest[j] == if j < k then order[j] else order[j + 1]
    ensures IsPermutation(rest, n - 1)
  {
    forall i: nat | i < n - 1
      ensures i in rest
    {
      assert i in order;
      var j :| 0 <= j < n && order[j] == i;
      assert rest[if j < k then j else j - 1] == i;
    }
  }

  /** The values read along `order` are those read along the rest, with the last value put in at `k`. */
  lemma SplitAt(ds: seq<real>, order: seq<nat>, k: nat, rest: seq<nat>) returns (a: seq<real>, b: seq<real>)
    requires |ds| > 0 && k < |ds| == |order| == |rest| + 1 && order[k] == |ds| - 1
    requires forall j :: 0 <= j < |order| ==> order[j] < |ds|
    requires forall j :: 0 <= j < |rest| ==> rest[j] < |ds| - 1
    requires forall j {:trigger rest[j]} :: 0 <= j < |rest| ==> rest[j] == if j < k then order[j] else order[j + 1]
    ensures At(ds, order) == a + [ds[|ds| - 1]] + b
    ensures At(ds[..|ds| - 1], rest) == a + b
  {
    a, b := At(ds, order)[..k], At(ds, order)[k + 1..];
    var r := At(ds[..|ds| - 1], rest);
    forall j | 0 <= j < |r|
      ensures r[j] == (a + b)[j]
    {
      var i := if j < k then j else j + 1;
      assert rest[j] == order[i] && At(ds, order)[i] == ds[order[i]];
    }
  }

  lemma MiddleMultiset(a: seq<real>, d: real, b: seq<real>)
    ensures multiset(a + [d] + b) == multiset(a + b) + multiset{d}
  {
  }

  lemma LastMultiset(ds: seq<real>)
    requires |ds| > 0
    ensures multiset(ds) == multiset(ds[..|ds| - 1]) + multiset{ds[|ds| - 1]}
  {
    assert ds == ds[..|ds| - 1] + [ds[|ds| - 1]];
  }

  lemma {:induction false} PermutedMultiset(ds: seq<real>, order: seq<nat>)
    requires IsPermutation(order, |ds|)
    ensures multiset(At(ds, order)) == multiset(ds)
  {
    hide IsPermutation;
    PermutationBounds(order, |ds|);
    if |ds| == 0 {
      assert At(ds, order) == ds;
    } else {
      var k, rest := DropLast(order, |ds|);
      PermutedMultiset(ds[..|ds| - 1], rest);
      PermutationBounds(rest, |ds| - 1);
      var a, b := SplitAt(ds, order, k, rest);
      MiddleMultiset(a, ds[|ds| - 1], b);
      LastMultiset(ds);
    }
  }

  function Take<T>(s: seq<T>, k: nat): seq<T> {
    if k < |s| then s[..k] else s
  }

  /** The distances a brute-force query reports: the `k` least, ascending. */
  function NearestDistances(ds: seq<real>, k: nat): seq<real> {
    Take(SortReals(ds), k)
  }

  /** Whatever order `argsort` leaves equal distances in, the oracle reports `NearestDistances`. */
  lemma ArgsortDistances(ds: seq<real>, order: seq<nat>, k: nat)
    requires IsPermutation(order, |ds|) && Ascending(At(ds, order))
    ensures At(ds, Take(order, k)) == NearestDistances(ds, k)
  {
    PermutedMultiset(ds, order);
    SortRealsAscending(ds);
    AscendingUnique(At(ds, order), SortReals(ds));
  }
}
