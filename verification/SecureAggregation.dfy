/** Pairwise-masked aggregation and the coordinate-wise trimmed mean. */
module SecureAggregation {
  import opened Options
  import opened RealSorting

  const K_ANONYMITY_FLOOR := 50
  const TRIM_FRACTION := 0.1

  type Vec = seq<real>

  // ---------------------------------------------------------------- masking

  /** Lexicographic order, as `sorted` compares client ids. */
  predicate LexLe(a: string, b: string) {
    a == "" || (b != "" && (a[0] < b[0] || (a[0] == b[0] && LexLe(a[1..], b[1..]))))
  }

  lemma {:induction false} LexTotal(a: string, b: string)
    ensures LexLe(a, b) || LexLe(b, a)
    ensures LexLe(a, b) && LexLe(b, a) ==> a == b
  {
    if a != "" && b != "" {
      LexTotal(a[1..], b[1..]);
      assert a == [a[0]] + a[1..] && b == [b[0]] + b[1..];
    }
  }

  /** A prefix comes first, and otherwise the first difference decides. */
  lemma {:induction false} LexByFirstDifference(a: string, b: string, i: nat)
    requires i <= |a| && i <= |b| && a[..i] == b[..i]
    ensures i == |a| ==> LexLe(a, b)
    ensures i < |a| && i < |b| && a[i] < b[i] ==> LexLe(a, b) && !LexLe(b, a)
  {
    if i > 0 {
      assert a[..i][0] == b[..i][0];
      assert a[1..][..i - 1] == a[..i][1..] && b[1..][..i - 1] == b[..i][1..];
      LexByFirstDifference(a[1..], b[1..], i - 1);
    }
  }

  /** `tuple(sorted((a, b)))`. */
  function PairKey(a: string, b: string): (string, string) {
    if LexLe(a, b) then (a, b) else (b, a)
  }

  /** Both clients of a pair name it alike, and exactly one of them is its first. */
  lemma PairKeyShared(a: string, b: string)
    requires a != b
    ensures PairKey(a, b) == PairKey(b, a)
    ensures (a == PairKey(a, b).0) != (b == PairKey(a, b).0)
  {
    LexTotal(a, b);
  }

  /** What the clients share: an expansion of a seed into coordinates, and the pairwise seeds. */
  datatype Setup = Setup(prg: (int, nat) -> real, seeds: map<(string, string), int>)

  /** The client shares a seed with every other one. */
  predicate SeedsCover(setup: Setup, clientId: string, ids: seq<string>) {
    forall d :: d in ids && d != clientId ==> PairKey(clientId, d) in setup.seeds
  }

  /** Coordinate `k` of the mask client `c` adds for client `d`. */
  function MaskTerm(setup: Setup, c: string, d: string, k: nat): real {
    if c == d || PairKey(c, d) !in setup.seeds then 0.0
    else (if c == PairKey(c, d).0 then 1.0 else -1.0) * setup.prg(setup.seeds[PairKey(c, d)], k)
  }

  lemma MasksOppose(setup: Setup, c: string, d: string, k: nat)
    ensures MaskTerm(setup, c, d, k) == -MaskTerm(setup, d, c, k)
  {
    if c != d {
      PairKeyShared(c, d);
    }
  }

  /** The client that sorts first adds the expansion of the shared seed, the other one subtracts it. */
  lemma MaskOfPair(setup: Setup, a: string, b: string, k: nat)
    requires a != b && LexLe(a, b) && (a, b) in setup.seeds
    ensures MaskTerm(setup, a, b, k) == setup.prg(setup.seeds[(a, b)], k)
    ensures MaskTerm(setup, b, a, k) == -setup.prg(setup.seeds[(a, b)], k)
  {
    LexTotal(a, b);
  }

  /** The masks client `c` adds for all of `others`. */
  function MaskSum(setup: Setup, c: string, others: seq<string>, k: nat): real {
    if others == [] then 0.0
    else MaskSum(setup, c, others[..|others| - 1], k) + MaskTerm(setup, c, others[|others| - 1], k)
  }

  function Prg(setup: Setup, seed: int, dim: nat, sign: real): (mask: Vec)
    ensures |mask| == dim && forall k :: 0 <= k < dim ==> mask[k] == sign * setup.prg(seed, k)
  {
    seq(dim, k requires k >= 0 => sign * setup.prg(seed, k))
  }

  function Add(a: Vec, b: Vec): (r: Vec)
    requires |a| == |b|
    ensures |r| == |a| && forall k :: 0 <= k < |a| ==> r[k] == a[k] + b[k]
  {
    seq(|a|, k requires 0 <= k < |a| => a[k] + b[k])
  }

  /** The client-side step: the update plus one signed mask per other client. */
  method ApplyPairwiseMasks(setup: Setup, clientId: string, update: Vec, allClientIds: seq<string>)
    returns (masked: Vec)
    requires SeedsCover(setup, clientId, allClientIds)
    ensures |masked| == |update|
    ensures forall k :: 0 <= k < |update| ==> masked[k] == update[k] + MaskSum(setup, clientId, allClientIds, k)
  {
    masked := update;
    for i := 0 to |allClientIds|
      invariant |masked| == |update|
      invariant forall k :: 0 <= k < |update| ==>
                masked[k] == update[k] + MaskSum(setup, clientId, allClientIds[..i], k)
    {
      var other := allClientIds[i];
      assert allClientIds[..i + 1][..i] == allClientIds[..i];
      if other == clientId {
        continue;
      }
      var pairKey := PairKey(clientId, other);
      var seed := setup.seeds[pairKey];
      var sign := if clientId == pairKey.0 then 1.0 else -1.0;
      masked := Add(masked, Prg(setup, seed, |update|, sign));
    }
    assert allClientIds[..|allClientIds|] == allClientIds;
  }

  /** The masks exchanged from the clients `xs` towards the clients `ys`. */
  function MasksBetween(setup: Setup, xs: seq<string>, ys: seq<string>, k: nat): real {
    if xs == [] then 0.0
    else MasksBetween(setup, xs[..|xs| - 1], ys, k) + MaskSum(setup, xs[|xs| - 1], ys, k)
  }

  /** Adding one client on the receiving side adds the masks towards it. */
  lemma {:induction false} MasksTowardsOneMore(setup: Setup, xs: seq<string>, ys: seq<string>, z: string, k: nat)
    ensures MasksBetween(setup, xs, ys + [z], k) == MasksBetween(setup, xs, ys, k) - MaskSum(setup, z, xs, k)
  {
    if xs != [] {
      var n := |xs| - 1;
      MasksTowardsOneMore(setup, xs[..n], ys, z, k);
      assert (ys + [z])[..|ys|] == ys;
      MasksOppose(setup, xs[n], z, k);
    }
  }

  /** Masks within a group cancel. */
  lemma {:induction false} MasksWithinCancel(setup: Setup, xs: seq<string>, k: nat)
    ensures MasksBetween(setup, xs, xs, k) == 0.0
  {
    if xs != [] {
      var front, z := xs[..|xs| - 1], xs[|xs| - 1];
      assert xs == front + [z];
      MasksWithinCancel(setup, front, k);
      MasksTowardsOneMore(setup, front, front, z, k);
    }
  }

  /** The masks for several clients add up one by one, the client's own place in the list adding nothing. */
  lemma MaskSumOne(setup: Setup, c: string, d: string, k: nat)
    ensures MaskSum(setup, c, [d], k) == if c == d then 0.0 else MaskTerm(setup, c, d, k)
    ensures MaskSum(setup, c, [], k) == 0.0
  {
    assert [d][..0] == [];
  }

  lemma {:induction false} MaskSumAppend(setup: Setup, c: string, xs: seq<string>, ys: seq<string>, k: nat)
    ensures MaskSum(setup, c, xs + ys, k) == MaskSum(setup, c, xs, k) + MaskSum(setup, c, ys, k)
  {
    if ys == [] {
      assert xs + ys == xs;
    } else {
      assert (xs + ys)[..|xs + ys| - 1] == xs + ys[..|ys| - 1];
      MaskSumAppend(setup, c, xs, ys[..|ys| - 1], k);
    }
  }

  lemma {:induction false} MasksAppend(setup: Setup, cs: seq<string>, xs: seq<string>, ys: seq<string>, k: nat)
    ensures MasksBetween(setup, cs, xs + ys, k) == MasksBetween(setup, cs, xs, k) + MasksBetween(setup, cs, ys, k)
  {
    if cs != [] {
      MasksAppend(setup, cs[..|cs| - 1], xs, ys, k);
      MaskSumAppend(setup, cs[|cs| - 1], xs, ys, k);
    }
  }

  /** Coordinate `k` of a sum of vectors. */
  function SumAt(vs: seq<Vec>, k: nat): real
    requires forall v :: v in vs ==> k < |v|
  {
    if vs == [] then 0.0 else SumAt(vs[..|vs| - 1], k) + vs[|vs| - 1][k]
  }

  /** `masked` are the masked updates of clients `cs` against the cohort `all`. */
  ghost predicate MaskedBy(setup: Setup, cs: seq<string>, all: seq<string>, updates: seq<Vec>, masked: seq<Vec>,
                           k: nat) {
    && |cs| == |updates| == |masked|
    && (forall v :: v in updates || v in masked ==> k < |v|)
    && forall i :: 0 <= i < |cs| ==> masked[i][k] == updates[i][k] + MaskSum(setup, cs[i], all, k)
  }

  lemma {:induction false} SumOfMasked(setup: Setup, cs: seq<string>, all: seq<string>, updates: seq<Vec>,
                                       masked: seq<Vec>, k: nat)
    requires MaskedBy(setup, cs, all, updates, masked, k)
    ensures SumAt(masked, k) == SumAt(updates, k) + MasksBetween(setup, cs, all, k)
  {
    if cs != [] {
      var n := |cs| - 1;
      assert MaskedBy(setup, cs[..n], all, updates[..n], masked[..n], k);
      SumOfMasked(setup, cs[..n], all, updates[..n], masked[..n], k);
      assert masked[n] in masked && updates[n] in updates;
    }
  }

  /** Over the whole cohort the masks cancel: the sum of the masked updates is the sum of the updates. */
  lemma FullCohortCancels(setup: Setup, ids: seq<string>, updates: seq<Vec>, masked: seq<Vec>, k: nat)
    requires MaskedBy(setup, ids, ids, updates, masked, k)
    ensures SumAt(masked, k) == SumAt(updates, k)
  {
    SumOfMasked(setup, ids, ids, updates, masked, k);
    MasksWithinCancel(setup, ids, k);
  }

  /** If some clients drop out, what is left over is exactly the masks between those who stayed and
      those who dropped. */
  lemma PartialCohortResidue(setup: Setup, stayed: seq<string>, dropped: seq<string>, updates: seq<Vec>,
                             masked: seq<Vec>, k: nat)
    requires MaskedBy(setup, stayed, stayed + dropped, updates, masked, k)
    ensures SumAt(masked, k) == SumAt(updates, k) + MasksBetween(setup, stayed, dropped, k)
  {
    SumOfMasked(setup, stayed, stayed + dropped, updates, masked, k);
    MasksAppend(setup, stayed, stayed, dropped, k);
    MasksWithinCancel(setup, stayed, k);
  }

  // ----------------------------------------------------------- trimmed mean

  function Sum(s: seq<real>): real {
    if s == [] then 0.0 else s[0] + Sum(s[1..])
  }

  /** `int(x)`: truncation towards zero. */
  function Truncate(x: real): int {
    if x >= 0.0 then x.Floor else -(-x).Floor
  }

  function TrimCount(n: nat, fraction: real): int {
    Truncate(n as real * fraction)
  }

  /** Sorted values without the least and greatest `TrimCount`; all of them when nothing is trimmed. */
  function Kept(sorted: seq<real>, fraction: real): seq<real> {
    var t := TrimCount(|sorted|, fraction);
    if t <= 0 then sorted
    else if 2 * t < |sorted| then sorted[t..|sorted| - t]
    else []
  }

  /** Their mean; nothing when no value is kept (NaN in the original). */
  function MeanOfKept(sorted: seq<real>, fraction: real): Option<real> {
    var kept := Kept(sorted, fraction);
    if kept == [] then None else Some(Sum(kept) / |kept| as real)
  }

  /** One coordinate of the trimmed mean. */
  function TrimmedMean(values: seq<real>, fraction: real): Option<real> {
    MeanOfKept(SortReals(values), fraction)
  }

  // ------------------------------------------------ what the trimmed mean is

  lemma {:induction false} SumAppend(a: seq<real>, b: seq<real>)
    ensures Sum(a + b) == Sum(a) + Sum(b)
  {
    if a == [] {
      assert a + b == b;
    } else {
      assert (a + b)[1..] == a[1..] + b;
      SumAppend(a[1..], b);
    }
  }

  /** A tenth is the whole number of tenths, and so for any fraction. */
  lemma TrimCountMeans(n: nat, fraction: real)
    requires fraction >= 0.0
    ensures TrimCount(n, fraction) as real <= n as real * fraction < TrimCount(n, fraction) as real + 1.0
    ensures TrimCount(n, fraction) >= 0
  {
    assert n as real * fraction >= 0.0;
  }

  /** Nothing is trimmed for a fraction below 0. */
  lemma TrimCountBelowZero(n: nat, fraction: real)
    requires fraction < 0.0
    ensures TrimCount(n, fraction) <= 0
  {
    assert n as real * -fraction >= 0.0;
  }

  lemma ThreeParts(s: seq<real>, i: nat, j: nat)
    requires i <= j <= |s|
    ensures s == s[..i] + s[i..j] + s[j..]
  {
  }

  lemma SumOfThree(a: seq<real>, b: seq<real>, c: seq<real>)
    ensures Sum(a + b + c) == Sum(a) + Sum(b) + Sum(c)
  {
    SumAppend(a + b, c);
    SumAppend(a, b);
  }

  lemma MiddleSum(s: seq<real>, t: nat)
    requires 2 * t <= |s|
    ensures Sum(s[t..|s| - t]) == Sum(s) - Sum(s[..t]) - Sum(s[|s| - t..])
  {
    hide Sum;
    var a, b, c := s[..t], s[t..|s| - t], s[|s| - t..];
    assert s == a + b + c by {
      ThreeParts(s, t, |s| - t);
    }
    SumOfThree(a, b, c);
  }

  /** `mean` is that of `n` values with this total. */
  predicate IsMeanOf(mean: real, n: nat, total: real) {
    n > 0 && mean * n as real == total
  }

  lemma QuotientIsMean(total: real, n: nat)
    requires n > 0
    ensures IsMeanOf(total / n as real, n, total)
  {
  }

  lemma KeptIsMiddle(s: seq<real>, fraction: real)
    ensures var t := if TrimCount(|s|, fraction) > 0 then TrimCount(|s|, fraction) else 0;
            var mean := MeanOfKept(s, fraction);
            && (mean.Some? <==> 2 * t < |s|)
            && (mean.Some? ==> IsMeanOf(mean.value, |s| - 2 * t, Sum(s[t..|s| - t])))
  {
    hide TrimCount, Sum, IsMeanOf;
    var t := if TrimCount(|s|, fraction) > 0 then TrimCount(|s|, fraction) else 0;
    if 2 * t < |s| {
      assert Kept(s, fraction) == s[t..|s| - t];
      QuotientIsMean(Sum(s[t..|s| - t]), |s| - 2 * t);
    }
  }

  /** Arrange the values in ascending order in any way: the mean times the number of values kept is the sum of
      all but the first and the last `t`; with nothing left to keep there is no mean. */
  lemma TrimmedMeanIsOfTheMiddle(values: seq<real>, fraction: real, s: seq<real>)
    requires Ascending(s) && multiset(s) == multiset(values)
    ensures var t := if TrimCount(|s|, fraction) > 0 then TrimCount(|s|, fraction) else 0;
            var mean := TrimmedMean(values, fraction);
            && (mean.Some? <==> 2 * t < |s|)
            && (mean.Some? ==> IsMeanOf(mean.value, |s| - 2 * t, Sum(s) - Sum(s[..t]) - Sum(s[|s| - t..])))
  {
    hide SortReals, TrimCount, Ascending, Sum, MeanOfKept, IsMeanOf;
    SortedAlike(s, values);
    SortRealsAscending(s);
    AscendingUnique(s, SortReals(s));
    var t := if TrimCount(|s|, fraction) > 0 then TrimCount(|s|, fraction) else 0;
    KeptIsMiddle(s, fraction);
    if 2 * t < |s| {
      MiddleSum(s, t);
    }
  }

  function Column(updates: seq<Vec>, j: nat): (column: seq<real>)
    requires forall u :: u in updates ==> j < |u|
    ensures |column| == |updates| && forall i :: 0 <= i < |updates| ==> column[i] == updates[i][j]
  {
    seq(|updates|, i requires 0 <= i < |updates| => assert updates[i] in updates; updates[i][j])
  }

  function CoordinateWiseTrimmedMean(updates: seq<Vec>, dim: nat, fraction: real): (r: seq<Option<real>>)
    requires forall u :: u in updates ==> |u| == dim
    ensures |r| == dim && forall j :: 0 <= j < dim ==> r[j] == TrimmedMean(Column(updates, j), fraction)
  {
    seq(dim, j requires 0 <= j < dim => TrimmedMean(Column(updates, j), fraction))
  }

  /** The order of the clients does not matter. */
  lemma OrderIrrelevant(a: seq<real>, b: seq<real>, fraction: real)
    requires multiset(a) == multiset(b)
    ensures TrimmedMean(a, fraction) == TrimmedMean(b, fraction)
  {
    hide SortReals, MeanOfKept;
    SortedAlike(a, b);
  }

  function CountBelow(s: seq<real>, x: real): nat {
    if s == [] then 0 else (if s[0] < x then 1 else 0) + CountBelow(s[1..], x)
  }

  function CountAbove(s: seq<real>, x: real): nat {
    if s == [] then 0 else (if s[0] > x then 1 else 0) + CountAbove(s[1..], x)
  }

  function CountTrue(s: seq<bool>): nat {
    if s == [] then 0 else (if s[0] then 1 else 0) + CountTrue(s[1..])
  }

  lemma {:induction false} InsertCounts(v: real, s: seq<real>, x: real)
    ensures CountBelow(InsertReal(v, s), x) == CountBelow(s, x) + (if v < x then 1 else 0)
    ensures CountAbove(InsertReal(v, s), x) == CountAbove(s, x) + (if v > x then 1 else 0)
  {
    if s == [] || v <= s[0] {
      assert ([v] + s)[1..] == s;
    } else {
      InsertCounts(v, s[1..], x);
      assert ([s[0]] + InsertReal(v, s[1..]))[1..] == InsertReal(v, s[1..]);
    }
  }

  lemma {:induction false} SortCounts(s: seq<real>, x: real)
    ensures CountBelow(SortReals(s), x) == CountBelow(s, x) && CountAbove(SortReals(s), x) == CountAbove(s, x)
  {
    if s != [] {
      SortCounts(s[1..], x);
      InsertCounts(s[0], SortReals(s[1..]), x);
    }
  }

  /** In ascending order, everything up to a low element is low, everything from a high one on is high. */
  lemma {:induction false} AscendingCounts(s: seq<real>, k: nat, x: real)
    requires Ascending(s) && k < |s|
    ensures s[k] < x ==> CountBelow(s, x) >= k + 1
    ensures s[k] > x ==> CountAbove(s, x) >= |s| - k
  {
    if k > 0 {
      AscendingCounts(s[1..], k - 1, x);
    } else if |s| > 1 && s[0] > x {
      assert s[1..][0] >= s[0];
      AscendingCounts(s[1..], 0, x);
    }
  }

  /** Only arbitrary values can lie outside the bounds of the honest ones. */
  lemma {:induction false} OutliersAreArbitrary(values: seq<real>, arbitrary: seq<bool>, lo: real, hi: real)
    requires |arbitrary| == |values|
    requires forall i :: 0 <= i < |values| && !arbitrary[i] ==> lo <= values[i] <= hi
    ensures CountBelow(values, lo) <= CountTrue(arbitrary) && CountAbove(values, hi) <= CountTrue(arbitrary)
  {
    if values != [] {
      OutliersAreArbitrary(values[1..], arbitrary[1..], lo, hi);
    }
  }

  lemma {:induction false} SumBounds(s: seq<real>, lo: real, hi: real)
    requires forall i :: 0 <= i < |s| ==> lo <= s[i] <= hi
    ensures lo * |s| as real <= Sum(s) <= hi * |s| as real
  {
    if s != [] {
      SumBounds(s[1..], lo, hi);
      assert lo * |s| as real == lo * |s[1..]| as real + lo;
      assert hi * |s| as real == hi * |s[1..]| as real + hi;
    }
  }

  lemma MeanBounds(s: seq<real>, lo: real, hi: real)
    requires s != [] && forall i :: 0 <= i < |s| ==> lo <= s[i] <= hi
    ensures lo <= Sum(s) / |s| as real <= hi
  {
    SumBounds(s, lo, hi);
    DivideBounds(Sum(s), |s| as real, lo, hi);
  }

  lemma DivideBounds(total: real, n: real, lo: real, hi: real)
    requires n > 0.0 && lo * n <= total <= hi * n
    ensures lo <= total / n <= hi
  {
    var q := total / n;
    assert q * n == total;
    assert q < lo ==> (lo - q) * n > 0.0;
    assert q > hi ==> (q - hi) * n > 0.0;
  }

  lemma TrimCountBounds(n: nat, fraction: real)
    requires 0.0 <= fraction < 0.5 && n > 0
    ensures 0 <= TrimCount(n, fraction) && 2 * TrimCount(n, fraction) < n
  {
    var x := n as real * fraction;
    assert 0.0 <= x && 2.0 * x < n as real by { assert n as real * (0.5 - fraction) > 0.0; }
  }

  /** Byzantine robustness: with at most `TrimCount` arbitrary values among at least one, and less than
      half trimmed on each side, the mean lies within any bounds of the honest values. */
  lemma TrimmedMeanIsRobust(values: seq<real>, arbitrary: seq<bool>, fraction: real, lo: real, hi: real)
    requires values != [] && |arbitrary| == |values| && 0.0 <= fraction < 0.5
    requires CountTrue(arbitrary) <= TrimCount(|values|, fraction)
    requires forall i :: 0 <= i < |values| && !arbitrary[i] ==> lo <= values[i] <= hi
    ensures TrimmedMean(values, fraction).Some?
    ensures lo <= TrimmedMean(values, fraction).value <= hi
  {
    hide TrimCount, SortReals, CountTrue, Sum;
    var n, t, sorted := |values|, TrimCount(|values|, fraction), SortReals(values);
    TrimCountBounds(n, fraction);
    SortRealsAscending(values);
    MiddleIsHonest(values, arbitrary, t, lo, hi);
    var kept := Kept(sorted, fraction);
    forall i | 0 <= i < |kept|
      ensures lo <= kept[i] <= hi
    {
      assert kept[i] == sorted[t + i];
      assert sorted[t] <= sorted[t + i] <= sorted[n - 1 - t];
    }
    MeanBounds(kept, lo, hi);
  }

  /** With at most `t` arbitrary values, the sorted values from `t` to `n - 1 - t` start and end within the
      honest bounds. */
  lemma MiddleIsHonest(values: seq<real>, arbitrary: seq<bool>, t: nat, lo: real, hi: real)
    requires |arbitrary| == |values| == |SortReals(values)| && 2 * t < |values| && CountTrue(arbitrary) <= t
    requires forall i :: 0 <= i < |values| && !arbitrary[i] ==> lo <= values[i] <= hi
    ensures SortReals(values)[t] >= lo && SortReals(values)[|values| - 1 - t] <= hi
  {
    hide SortReals, CountTrue, CountBelow, CountAbove, Ascending;
    SortRealsAscending(values);
    OutliersAreArbitrary(values, arbitrary, lo, hi);
    SortCounts(values, lo);
    SortCounts(values, hi);
    AscendingCounts(SortReals(values), t, lo);
    AscendingCounts(SortReals(values), |values| - 1 - t, hi);
  }

  // ------------------------------------------------------------- the round

  datatype Contribution = Contribution(clientId: string, update: Vec, attested: bool)

  datatype AggregationResult = AggregationResult(success: bool, aggregate: Option<seq<Option<real>>>, cohortSize: nat)

  function Attested(cs: seq<Contribution>): seq<Contribution> {
    if cs == [] then [] else (if cs[0].attested then [cs[0]] else []) + Attested(cs[1..])
  }

  function Updates(cs: seq<Contribution>): (r: seq<Vec>)
    ensures |r| == |cs| && forall i :: 0 <= i < |cs| ==> r[i] == cs[i].update
  {
    seq(|cs|, i requires 0 <= i < |cs| => cs[i].update)
  }

  /** The updates a round stacks have one dimension. */
  predicate Stackable(cs: seq<Contribution>, dim: nat) {
    |Attested(cs)| >= K_ANONYMITY_FLOOR ==> forall c :: c in Attested(cs) ==> |c.update| == dim
  }

  /** The server-side round: deferred below the attested floor, else the trimmed mean of the attested updates. */
  function RunRound(cs: seq<Contribution>, dim: nat): AggregationResult
    requires Stackable(cs, dim)
  {
    var attested := Attested(cs);
    if |attested| < K_ANONYMITY_FLOOR then AggregationResult(false, None, |attested|)
    else AggregationResult(true, Some(CoordinateWiseTrimmedMean(Updates(attested), dim, TRIM_FRACTION)), |attested|)
  }

  /** A round that runs has at least 50 attested clients, ignores the others, and tolerates arbitrary
      updates from a tenth of the attested: each coordinate stays within the honest bounds. */
  lemma RoundIsRobust(cs: seq<Contribution>, dim: nat, arbitrary: seq<bool>, j: nat, lo: real, hi: real)
    requires Stackable(cs, dim) && j < dim
    requires |arbitrary| == |Attested(cs)| && 10 * CountTrue(arbitrary) <= |Attested(cs)|
    requires forall i :: 0 <= i < |Attested(cs)| && !arbitrary[i] && j < |Attested(cs)[i].update| ==>
             lo <= Attested(cs)[i].update[j] <= hi
    ensures var r := RunRound(cs, dim);
            && r.cohortSize == |Attested(cs)| && (r.success <==> |Attested(cs)| >= 50)
            && (r.aggregate.Some? <==> r.success)
            && (r.success ==>
                |r.aggregate.value| == dim && r.aggregate.value[j].Some? && lo <= r.aggregate.value[j].value <= hi)
  {
    var attested := Attested(cs);
    if |attested| >= K_ANONYMITY_FLOOR {
      assert forall i :: 0 <= i < |attested| ==> attested[i] in attested;
      var values := Column(Updates(attested), j);
      TenthTrimmed(|attested|, CountTrue(arbitrary));
      TrimmedMeanIsRobust(values, arbitrary, TRIM_FRACTION, lo, hi);
    }
  }

  lemma TenthTrimmed(n: nat, count: nat)
    requires 10 * count <= n
    ensures count <= TrimCount(n, TRIM_FRACTION)
  {
    assert count as real <= n as real * 0.1;
  }

  /** What a round that runs reports: in each coordinate the mean of the attested values, ascending, between
      the lowest and the highest tenth of the clients, rounded down. */
  lemma RoundIsTrimmedMean(cs: seq<Contribution>, dim: nat, j: nat, s: seq<real>, t: nat)
    requires Stackable(cs, dim) && j < dim && |Attested(cs)| >= 50
    requires Ascending(s) && multiset(s) == multiset(Values(Attested(cs), j))
    requires 10 * t <= |s| < 10 * t + 10
    ensures var r := RunRound(cs, dim);
            && r.success && r.aggregate.Some? && |r.aggregate.value| == dim && r.aggregate.value[j].Some?
            && IsMeanOf(r.aggregate.value[j].value, |s| - 2 * t, Sum(s) - Sum(s[..t]) - Sum(s[|s| - t..]))
  {
    hide TrimmedMean, Values, Attested, TrimCount, Ascending, Sum, IsMeanOf, SortReals;
    var attested := Attested(cs);
    assert forall i :: 0 <= i < |attested| ==> attested[i] in attested;
    ColumnIsValues(attested, j);
    SortedAlike(s, Values(attested, j));
    TenthOf(|s|, t);
    TrimmedMeanIsOfTheMiddle(Values(attested, j), TRIM_FRACTION, s);
  }

  lemma TenthOf(n: nat, t: nat)
    requires 10 * t <= n < 10 * t + 10
    ensures TrimCount(n, TRIM_FRACTION) == t
  {
    assert t as real <= n as real * 0.1 < t as real + 1.0;
  }

  // ------------------------------------------------ the order of contributions

  lemma {:induction false} AttestedMultiset(cs: seq<Contribution>, c: Contribution)
    ensures multiset(Attested(cs))[c] == if c.attested then multiset(cs)[c] else 0
  {
    if cs != [] {
      assert cs == [cs[0]] + cs[1..];
      AttestedMultiset(cs[1..], c);
    }
  }

  /** Coordinate `j` of each contribution. */
  function Values(cs: seq<Contribution>, j: nat): (r: seq<real>)
    ensures |r| == |cs|
  {
    if cs == [] then [] else [if j < |cs[0].update| then cs[0].update[j] else 0.0] + Values(cs[1..], j)
  }

  lemma {:induction false} ValuesAppend(a: seq<Contribution>, b: seq<Contribution>, j: nat)
    ensures Values(a + b, j) == Values(a, j) + Values(b, j)
  {
    if a == [] {
      assert a + b == b;
    } else {
      assert (a + b)[1..] == a[1..] + b;
      ValuesAppend(a[1..], b, j);
    }
  }

  lemma TakeOut(b: seq<Contribution>, c: Contribution, j: nat) returns (rest: seq<Contribution>)
    requires c in b
    ensures |rest| == |b| - 1 && multiset(rest) == multiset(b) - multiset{c}
    ensures multiset(Values(b, j)) == multiset(Values(rest, j)) + multiset(Values([c], j))
  {
    hide Values;
    var i :| 0 <= i < |b| && b[i] == c;
    rest := b[..i] + b[i + 1..];
    assert b == b[..i] + ([c] + b[i + 1..]);
    ValuesAppend(b[..i], [c] + b[i + 1..], j);
    ValuesAppend([c], b[i + 1..], j);
    ValuesAppend(b[..i], b[i + 1..], j);
  }

  lemma {:induction false} ValuesMultiset(a: seq<Contribution>, b: seq<Contribution>, j: nat)
    requires multiset(a) == multiset(b)
    ensures multiset(Values(a, j)) == multiset(Values(b, j)) && |a| == |b|
  {
    assert |multiset(a)| == |a| && |multiset(b)| == |b|;
    if a != [] {
      assert a == [a[0]] + a[1..];
      assert a[0] in multiset(b);
      var rest := TakeOut(b, a[0], j);
      ValuesMultiset(a[1..], rest, j);
      ValuesAppend([a[0]], a[1..], j);
    }
  }

  lemma {:induction false} ColumnIsValues(cs: seq<Contribution>, j: nat)
    requires forall u :: u in Updates(cs) ==> j < |u|
    ensures Column(Updates(cs), j) == Values(cs, j)
  {
    if cs != [] {
      assert Updates(cs)[0] in Updates(cs);
      assert Updates(cs[1..]) == Updates(cs)[1..];
      ColumnIsValues(cs[1..], j);
    }
  }

  /** The aggregate of a round does not depend on the order in which contributions arrive. */
  lemma RoundOrderIrrelevant(a: seq<Contribution>, b: seq<Contribution>, dim: nat)
    requires Stackable(a, dim) && multiset(a) == multiset(b)
    ensures Stackable(b, dim) && RunRound(a, dim) == RunRound(b, dim)
  {
    hide TrimmedMean, Values, Attested;
    var x, y := Attested(a), Attested(b);
    assert multiset(x) == multiset(y) by { SameAttested(a, b); }
    ValuesMultiset(x, y, 0);
    assert forall i :: 0 <= i < |x| ==> x[i] in x;
    assert forall c :: c in y <==> c in multiset(y);
    assert forall c :: c in x <==> c in multiset(x);
    assert forall i :: 0 <= i < |y| ==> y[i] in y;
    if |x| >= K_ANONYMITY_FLOOR {
      var ra, rb := CoordinateWiseTrimmedMean(Updates(x), dim, TRIM_FRACTION),
                    CoordinateWiseTrimmedMean(Updates(y), dim, TRIM_FRACTION);
      forall j | 0 <= j < dim
        ensures ra[j] == rb[j]
      {
        ColumnIsValues(x, j);
        ColumnIsValues(y, j);
        ValuesMultiset(x, y, j);
        OrderIrrelevant(Values(x, j), Values(y, j), TRIM_FRACTION);
      }
      assert ra == rb;
    }
  }

  lemma SameAttested(a: seq<Contribution>, b: seq<Contribution>)
    requires multiset(a) == multiset(b)
    ensures multiset(Attested(a)) == multiset(Attested(b))
  {
    forall c
      ensures multiset(Attested(a))[c] == multiset(Attested(b))[c]
    {
      AttestedMultiset(a, c);
      AttestedMultiset(b, c);
    }
  }
}
