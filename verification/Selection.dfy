/** Choosing elements of a sequence in order. */
module Selection {

  ghost predicate Increasing(at: seq<nat>) {
    forall k, l :: 0 <= k < l < |at| ==> at[k] < at[l]
  }

  lemma LastIsGreatest(at: seq<nat>)
    requires at != [] && Increasing(at)
    ensures var front, last := at[..|at| - 1], at[|at| - 1];
            && last in at && (forall i :: i in at ==> i <= last)
            && Increasing(front) && forall i: nat :: i in front <==> i in at && i != last
  {
  }

  /** Increasing positions are determined by which they are. */
  lemma {:induction false} IncreasingUnique(p: seq<nat>, q: seq<nat>)
    requires Increasing(p) && Increasing(q) && forall i: nat :: i in p <==> i in q
    ensures p == q
  {
    assert q != [] ==> q[0] in p;
    if p != [] {
      assert p[0] in q;
      LastIsGreatest(p);
      LastIsGreatest(q);
      hide Increasing;
      var (a, b) := (p[..|p| - 1], q[..|q| - 1]);
      assert p[|p| - 1] == q[|q| - 1];
      assert p == a + [p[|p| - 1]] && q == b + [q[|q| - 1]];
      IncreasingUnique(a, b);
    }
  }

  lemma OneMorePosition(at: seq<nat>, n: nat)
    requires Increasing(at) && forall i :: i in at ==> i < n
    ensures Increasing(at + [n]) && forall i: nat :: i in at + [n] <==> i in at || i == n
  {
    assert forall k :: 0 <= k < |at| ==> at[k] in at;
  }

  /** `at` lists, in order, exactly the positions of `s` to keep, and `r` what is made of the elements there. */
  ghost predicate SelectedAt<S(!new), T(!new)>(s: seq<S>, keep: S -> bool, makes: (S, T) -> bool, r: seq<T>,
                                               at: seq<nat>) {
    && |at| == |r| && Increasing(at)
    && (forall k :: 0 <= k < |at| ==> at[k] < |s| && makes(s[at[k]], r[k]))
    && forall i :: 0 <= i < |s| ==> (i in at <==> keep(s[i]))
  }

  ghost predicate Selected<S(!new), T(!new)>(s: seq<S>, keep: S -> bool, makes: (S, T) -> bool, r: seq<T>) {
    exists at :: SelectedAt(s, keep, makes, r, at)
  }

  lemma NothingSelected<S(!new), T(!new)>(keep: S -> bool, makes: (S, T) -> bool)
    ensures Selected([], keep, makes, [])
  {
    assert SelectedAt([], keep, makes, [], []);
  }

  /** Selecting from one element more. */
  lemma SelectNext<S(!new), T(!new)>(s: seq<S>, keep: S -> bool, makes: (S, T) -> bool, r: seq<T>, r': seq<T>)
    requires s != [] && Selected(s[..|s| - 1], keep, makes, r)
    requires if keep(s[|s| - 1]) then |r'| == |r| + 1 && r'[..|r|] == r && makes(s[|s| - 1], r'[|r|]) else r' == r
    ensures Selected(s, keep, makes, r')
  {
    var n := |s| - 1;
    var at :| SelectedAt(s[..n], keep, makes, r, at);
    if keep(s[n]) {
      OneMorePosition(at, n);
      hide Increasing;
      assert r' == r + [r'[|r|]];
      assert SelectedAt(s, keep, makes, r', at + [n]);
    } else {
      assert SelectedAt(s, keep, makes, r', at);
    }
  }

  /** Every element kept has its place in the selection. */
  lemma KeptIsSelected<S(!new), T(!new)>(s: seq<S>, keep: S -> bool, makes: (S, T) -> bool, r: seq<T>, i: nat)
    returns (k: nat)
    requires Selected(s, keep, makes, r) && i < |s| && keep(s[i])
    ensures k < |r| && makes(s[i], r[k])
  {
    var at :| SelectedAt(s, keep, makes, r, at);
    k :| 0 <= k < |at| && at[k] == i;
  }

  /** Everything selected comes from an element kept. */
  lemma SelectedIsKept<S(!new), T(!new)>(s: seq<S>, keep: S -> bool, makes: (S, T) -> bool, r: seq<T>, k: nat)
    returns (i: nat)
    requires Selected(s, keep, makes, r) && k < |r|
    ensures i < |s| && keep(s[i]) && makes(s[i], r[k])
  {
    var at :| SelectedAt(s, keep, makes, r, at);
    i := at[k];
    assert i in at;
  }

  /** A selection that only copies has one result. */
  lemma SelectedOneWay<T(!new)>(s: seq<T>, keep: T -> bool, a: seq<T>, b: seq<T>)
    requires Selected(s, keep, (x, y) => x == y, a) && Selected(s, keep, (x, y) => x == y, b)
    ensures a == b
  {
    var p :| SelectedAt(s, keep, (x, y) => x == y, a, p);
    var q :| SelectedAt(s, keep, (x, y) => x == y, b, q);
    forall i: nat
      ensures i in p <==> i in q
    {
      assert i in p ==> i < |s|;
      assert i in q ==> i < |s|;
    }
    IncreasingUnique(p, q);
  }
}
