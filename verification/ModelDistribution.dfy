/** The stratified canary cohort a model update reaches first. */
module ModelDistribution {
  import opened Sets

  /** A device record; `id` is its identity, `stratum` its value on the equity dimension or "unknown". */
  datatype Device = Device(id: nat, stratum: string)

  function Stratum(devices: seq<Device>, key: string): (r: seq<Device>)
    ensures forall d :: d in r <==> d in devices && d.stratum == key
  {
    if devices == [] then [] else
      var (front, last) := (devices[..|devices| - 1], devices[|devices| - 1]);
      assert devices == front + [last];
      if last.stratum == key then Stratum(front, key) + [last] else Stratum(front, key)
  }

  function Min(a: nat, b: nat): nat {
    if a <= b then a else b
  }

  function Max(a: nat, b: nat): nat {
    if a >= b then a else b
  }

  /** The leading devices of every stratum, `least` at most from each. */
  function Guaranteed(devices: seq<Device>, keys: seq<string>, least: nat): seq<Device> {
    if keys == [] then [] else
      var (front, stratum) := (keys[..|keys| - 1], Stratum(devices, keys[|keys| - 1]));
      Guaranteed(devices, front, least) + stratum[..Min(|stratum|, least)]
  }

  /** How many devices the strata are owed together. */
  function Owed(devices: seq<Device>, keys: seq<string>, least: nat): nat {
    if keys == [] then 0 else
      Owed(devices, keys[..|keys| - 1], least) + Min(|Stratum(devices, keys[|keys| - 1])|, least)
  }

  ghost predicate Distinct<T(!new)>(s: seq<T>) {
    forall i, j :: 0 <= i < j < |s| ==> s[i] != s[j]
  }

  /** The strata in order of first appearance. */
  function Strata(devices: seq<Device>): seq<string> {
    if devices == [] then [] else
      var front, key := Strata(devices[..|devices| - 1]), devices[|devices| - 1].stratum;
      if key in front then front else front + [key]
  }

  /** Each stratum once, and every stratum. */
  ghost predicate AreStrata(devices: seq<Device>, keys: seq<string>) {
    Distinct(keys) && forall k :: k in keys <==> exists d :: d in devices && d.stratum == k
  }

  function Elements<T(==)>(s: seq<T>): set<T> {
    set x | x in s
  }

  lemma {:induction false} DistinctCount<T(!new)>(s: seq<T>)
    requires Distinct(s)
    ensures |Elements(s)| == |s|
  {
    if s != [] {
      var (front, last) := (s[..|s| - 1], s[|s| - 1]);
      DistinctCount(front);
      assert s == front + [last];
      assert last !in front;
      assert Elements(s) == Elements(front) + {last};
    }
  }

  lemma DistinctFits<T(!new)>(s: seq<T>, whole: seq<T>)
    requires Distinct(s) && Distinct(whole) && forall x :: x in s ==> x in whole
    ensures |s| <= |whole|
  {
    DistinctCount(s);
    DistinctCount(whole);
    SubsetSize(Elements(s), Elements(whole));
  }

  lemma {:induction false} StratumDistinct(devices: seq<Device>, key: string)
    requires Distinct(devices)
    ensures Distinct(Stratum(devices, key))
  {
    if devices != [] {
      var (front, last) := (devices[..|devices| - 1], devices[|devices| - 1]);
      StratumDistinct(front, key);
      assert last !in front;
    }
  }

  lemma DistinctJoin<T(!new)>(a: seq<T>, b: seq<T>)
    requires Distinct(a) && Distinct(b) && forall x :: x in a ==> x !in b
    ensures Distinct(a + b)
  {
    var s := a + b;
    forall i, j | 0 <= i < j < |s|
      ensures s[i] != s[j]
    {
      if i < |a| <= j {
        assert s[i] in a && s[j] in b;
      }
    }
  }

  lemma DistinctTake<T(!new)>(s: seq<T>, k: nat)
    requires Distinct(s) && k <= |s|
    ensures Distinct(s[..k]) && forall x :: x in s[..k] ==> x in s
  {
  }

  lemma {:induction false} GuaranteedFacts(devices: seq<Device>, keys: seq<string>, least: nat)
    ensures |Guaranteed(devices, keys, least)| == Owed(devices, keys, least)
    ensures forall d :: d in Guaranteed(devices, keys, least) ==> d in devices && d.stratum in keys
    ensures Distinct(devices) && Distinct(keys) ==> Distinct(Guaranteed(devices, keys, least))
  {
    if keys != [] {
      var (front, key) := (keys[..|keys| - 1], keys[|keys| - 1]);
      GuaranteedFacts(devices, front, least);
      assert keys == front + [key];
      if Distinct(devices) && Distinct(keys) {
        assert key !in front;
        StratumDistinct(devices, key);
        var stratum := Stratum(devices, key);
        DistinctTake(stratum, Min(|stratum|, least));
        DistinctTake(keys, |front|);
        hide Distinct;
        DistinctJoin(Guaranteed(devices, front, least), stratum[..Min(|stratum|, least)]);
      }
    }
  }

  /** The first `budget` devices not in `taken`, in order. */
  function Filler(devices: seq<Device>, taken: set<Device>, budget: nat): (r: seq<Device>)
    ensures |r| <= budget && forall d :: d in r ==> d in devices && d !in taken
  {
    if devices == [] then [] else
      var (front, last) := (devices[..|devices| - 1], devices[|devices| - 1]);
      var rest := Filler(front, taken, budget);
      if |rest| < budget && last !in taken then rest + [last] else rest
  }

  lemma DistinctFront<T(!new)>(s: seq<T>)
    requires s != [] && Distinct(s)
    ensures Distinct(s[..|s| - 1]) && s[|s| - 1] !in s[..|s| - 1]
  {
  }

  lemma {:induction false} FillerDistinct(devices: seq<Device>, taken: set<Device>, budget: nat)
    requires Distinct(devices)
    ensures Distinct(Filler(devices, taken, budget))
  {
    if devices != [] {
      var (front, last) := (devices[..|devices| - 1], devices[|devices| - 1]);
      DistinctFront(devices);
      FillerDistinct(front, taken, budget);
      DistinctJoin(Filler(front, taken, budget), [last]);
    }
  }

  lemma {:induction false} FillerCount(devices: seq<Device>, taken: set<Device>, budget: nat)
    requires Distinct(devices)
    ensures |Filler(devices, taken, budget)| == Min(budget, |Elements(devices) - taken|)
  {
    hide Elements, Distinct;
    if devices != [] {
      var (front, last) := (devices[..|devices| - 1], devices[|devices| - 1]);
      DistinctFront(devices);
      FillerCount(front, taken, budget);
      OneMoreFree(front, last, taken);
      assert devices == front + [last];
    } else {
      NothingFree(taken);
    }
  }

  lemma NothingFree(taken: set<Device>)
    ensures |Elements([]) - taken| == 0
  {
    assert Elements<Device>([]) - taken == {};
  }

  lemma OneMoreFree(front: seq<Device>, last: Device, taken: set<Device>)
    requires last !in front
    ensures |Elements(front + [last]) - taken| == |Elements(front) - taken| + if last in taken then 0 else 1
  {
    var free := Elements(front) - taken;
    if last in taken {
      assert Elements(front + [last]) - taken == free;
    } else {
      assert Elements(front + [last]) - taken == free + {last};
    }
  }

  /** The cohort: what the strata are owed, topped up in order to one device in a hundred. */
  function Cohort(devices: seq<Device>, least: nat): seq<Device> {
    var owed := Guaranteed(devices, Strata(devices), least);
    owed + Filler(devices, Elements(owed), Max(|owed|, |devices| / 100) - |owed|)
  }

  /** Every stratum keeps its minimum, nobody is drawn twice, and the size is exactly the larger of what
      the strata are owed and one in a hundred. */
  lemma CohortIsStratified(devices: seq<Device>, least: nat)
    requires Distinct(devices)
    ensures var c := Cohort(devices, least);
            && Distinct(c) && (forall d :: d in c ==> d in devices)
            && |c| == Max(Owed(devices, Strata(devices), least), |devices| / 100)
            && forall k :: k in Strata(devices) ==> |Stratum(c, k)| >= Min(|Stratum(devices, k)|, least)
  {
    hide Stratum, Guaranteed, Owed, Filler, AreStrata, Strata;
    var keys := Strata(devices);
    StrataAreStrata(devices);
    var owed := Guaranteed(devices, keys, least);
    var taken := Elements(owed);
    var budget := Max(|owed|, |devices| / 100) - |owed|;
    assert Distinct(keys) by { StrataAreDistinct(devices, keys); }
    GuaranteedFacts(devices, keys, least);
    DistinctFits(owed, devices);
    FillerDistinct(devices, taken, budget);
    FillerCount(devices, taken, budget);
    DistinctJoin(owed, Filler(devices, taken, budget));
    FreeDevices(devices, owed);
    forall k | k in keys
      ensures |Stratum(Cohort(devices, least), k)| >= Min(|Stratum(devices, k)|, least)
    {
      StratumOfJoin(owed, Filler(devices, taken, budget), k);
      ServedOnce(devices, keys, least, k);
    }
  }

  lemma {:induction false} StrataAreStrata(devices: seq<Device>)
    ensures AreStrata(devices, Strata(devices))
  {
    if devices != [] {
      var n := |devices| - 1;
      StrataAreStrata(devices[..n]);
      StrataStep(devices[..n], Strata(devices[..n]), devices[n]);
      assert devices == devices[..n] + [devices[n]];
    }
  }

  lemma StrataAreDistinct(devices: seq<Device>, keys: seq<string>)
    requires AreStrata(devices, keys)
    ensures Distinct(keys)
  {
  }

  lemma FreeDevices(devices: seq<Device>, owed: seq<Device>)
    requires Distinct(devices) && Distinct(owed) && forall d :: d in owed ==> d in devices
    ensures |Elements(devices) - Elements(owed)| == |devices| - |owed|
  {
    DistinctCount(devices);
    DistinctCount(owed);
    assert Elements(devices) == Elements(owed) + (Elements(devices) - Elements(owed));
  }

  lemma {:induction false} StratumOfJoin(a: seq<Device>, b: seq<Device>, key: string)
    ensures Stratum(a + b, key) == Stratum(a, key) + Stratum(b, key)
  {
    if b == [] {
      assert a + b == a;
    } else {
      var n := |b| - 1;
      assert (a + b)[..|a| + n] == a + b[..n];
      StratumOfJoin(a, b[..n], key);
    }
  }

  lemma {:induction false} StratumWhole(s: seq<Device>, key: string)
    requires forall d :: d in s ==> d.stratum == key
    ensures Stratum(s, key) == s
  {
    if s != [] {
      var (front, last) := (s[..|s| - 1], s[|s| - 1]);
      assert s == front + [last];
      assert Stratum(front, key) == front by {
        StratumWhole(front, key);
      }
      assert last.stratum == key by {
        assert last in s;
      }
      hide *;
      StratumStep(front, last, key);
    }
  }

  /** Each stratum is drawn on for its minimum once. */
  lemma {:induction false} ServedOnce(devices: seq<Device>, keys: seq<string>, least: nat, key: string)
    requires Distinct(keys)
    ensures |Stratum(Guaranteed(devices, keys, least), key)| ==
            if key in keys then Min(|Stratum(devices, key)|, least) else 0
  {
    hide Distinct, Stratum;
    if keys == [] {
      EmptyStratum([], key);
    } else {
      var (front, last) := (keys[..|keys| - 1], keys[|keys| - 1]);
      var stratum := Stratum(devices, last);
      var share := stratum[..Min(|stratum|, least)];
      assert keys == front + [last];
      DistinctFront(keys);
      ServedOnce(devices, front, least, key);
      StratumOfJoin(Guaranteed(devices, front, least), share, key);
      if key == last {
        StratumWhole(share, key);
      } else {
        EmptyStratum(share, key);
      }
    }
  }

  /** `order` lists the strata of `devices`, and `strata` holds each of them. */
  ghost predicate Grouped(devices: seq<Device>, order: seq<string>, strata: map<string, seq<Device>>) {
    && order == Strata(devices)
    && (forall k :: k in strata <==> k in order)
    && forall k :: k in strata ==> strata[k] == Stratum(devices, k)
  }

  lemma {:induction false} EmptyStratum(devices: seq<Device>, key: string)
    requires forall d :: d in devices ==> d.stratum != key
    ensures Stratum(devices, key) == []
  {
    if devices != [] {
      EmptyStratum(devices[..|devices| - 1], key);
    }
  }

  lemma StratumStep(devices: seq<Device>, d: Device, key: string)
    ensures Stratum(devices + [d], key) ==
            if d.stratum == key then Stratum(devices, key) + [d] else Stratum(devices, key)
  {
    assert (devices + [d])[..|devices|] == devices;
  }

  lemma StrataStep(devices: seq<Device>, order: seq<string>, d: Device)
    requires AreStrata(devices, order)
    ensures AreStrata(devices + [d], if d.stratum in order then order else order + [d.stratum])
  {
    var order' := if d.stratum in order then order else order + [d.stratum];
    forall k
      ensures k in order' <==> exists e :: e in devices + [d] && e.stratum == k
    {
      if k == d.stratum {
        assert d in devices + [d];
      } else {
        assert forall e :: e in devices + [d] <==> e in devices || e == d;
      }
    }
  }

  /** What the stratum of `d` holds so far. */
  function Bin(strata: map<string, seq<Device>>, d: Device): seq<Device> {
    if d.stratum in strata then strata[d.stratum] else []
  }

  lemma BinIsStratum(devices: seq<Device>, order: seq<string>, strata: map<string, seq<Device>>, d: Device)
    requires Grouped(devices, order, strata)
    ensures Bin(strata, d) == Stratum(devices, d.stratum)
  {
    StrataAreStrata(devices);
    if d.stratum !in strata {
      EmptyStratum(devices, d.stratum);
    }
  }

  lemma StrataSnoc(devices: seq<Device>, d: Device)
    ensures var front := Strata(devices);
            Strata(devices + [d]) == if d.stratum in front then front else front + [d.stratum]
  {
    assert (devices + [d])[..|devices|] == devices;
  }

  lemma KeysStep<T>(order: seq<string>, strata: map<string, T>, key: string, bin: T)
    requires forall k :: k in strata <==> k in order
    ensures var order' := if key in strata then order else order + [key];
            forall k :: k in strata[key := bin] <==> k in order'
  {
  }

  lemma BinsStep(devices: seq<Device>, order: seq<string>, strata: map<string, seq<Device>>, d: Device)
    requires Grouped(devices, order, strata)
    ensures var strata' := strata[d.stratum := Bin(strata, d) + [d]];
            forall k :: k in strata' ==> strata'[k] == Stratum(devices + [d], k)
  {
    BinIsStratum(devices, order, strata, d);
    hide Strata, Stratum, Bin;
    var strata' := strata[d.stratum := Bin(strata, d) + [d]];
    forall k | k in strata'
      ensures strata'[k] == Stratum(devices + [d], k)
    {
      StratumStep(devices, d, k);
    }
  }

  /** Filing one more device under its stratum. */
  lemma GroupStep(devices: seq<Device>, order: seq<string>, strata: map<string, seq<Device>>, d: Device)
    requires Grouped(devices, order, strata)
    ensures Grouped(devices + [d], if d.stratum in strata then order else order + [d.stratum],
                    strata[d.stratum := Bin(strata, d) + [d]])
  {
    hide Strata, Stratum, Bin;
    StrataSnoc(devices, d);
    KeysStep(order, strata, d.stratum, Bin(strata, d) + [d]);
    BinsStep(devices, order, strata, d);
  }

  /** Group by stratum, take the minimum from each, then fill up to one device in a hundred. */
  method StratifiedCanaryCohort(devices: seq<Device>, least: nat) returns (cohort: seq<Device>)
    ensures cohort == Cohort(devices, least)
  {
    hide Grouped, Strata, Stratum, Elements;
    var strata: map<string, seq<Device>>, order: seq<string> := map[], [];
    NothingGrouped();
    for i := 0 to |devices|
      invariant Grouped(devices[..i], order, strata)
    {
      var d := devices[i];
      assert devices[..i + 1] == devices[..i] + [d];
      GroupStep(devices[..i], order, strata, d);
      ghost var before := strata;
      if d.stratum !in strata {
        strata := strata[d.stratum := []];
        order := order + [d.stratum];
      }
      strata := strata[d.stratum := strata[d.stratum] + [d]];
      assert strata == before[d.stratum := Bin(before, d) + [d]];
    }
    assert devices[..|devices|] == devices;
    cohort := [];
    GroupedFacts(devices, order, strata);
    for i := 0 to |order|
      invariant cohort == Guaranteed(devices, order[..i], least)
    {
      assert order[i] in strata;
      var stratum := strata[order[i]];
      cohort := cohort + stratum[..Min(|stratum|, least)];
      assert order[..i + 1][..i] == order[..i];
    }
    assert order[..|order|] == order;
    var filler := Fill(devices, Elements(cohort), Max(|cohort|, |devices| / 100) - |cohort|);
    cohort := cohort + filler;
  }

  lemma NothingGrouped()
    ensures Grouped([], [], map[])
  {
  }

  lemma GroupedFacts(devices: seq<Device>, order: seq<string>, strata: map<string, seq<Device>>)
    requires Grouped(devices, order, strata)
    ensures order == Strata(devices) && forall k :: k in order ==> k in strata && strata[k] == Stratum(devices, k)
  {
  }

  /** The closing loop: append devices not yet taken while the budget lasts. */
  method Fill(devices: seq<Device>, taken: set<Device>, budget: nat) returns (filler: seq<Device>)
    ensures filler == Filler(devices, taken, budget)
  {
    filler := [];
    var remaining := budget;
    for i := 0 to |devices|
      invariant 0 <= remaining == budget - |filler|
      invariant filler == Filler(devices[..i], taken, budget)
    {
      if remaining <= 0 {
        FillerFull(devices, i, taken, budget);
        return;
      }
      assert devices[..i + 1][..i] == devices[..i];
      if devices[i] !in taken {
        filler := filler + [devices[i]];
        remaining := remaining - 1;
      }
    }
    assert devices[..|devices|] == devices;
  }

  /** A full budget is unaffected by the devices that follow. */
  lemma {:induction false} FillerFull(devices: seq<Device>, i: nat, taken: set<Device>, budget: nat)
    requires i <= |devices| && |Filler(devices[..i], taken, budget)| == budget
    ensures Filler(devices, taken, budget) == Filler(devices[..i], taken, budget)
  {
    if i == |devices| {
      assert devices[..i] == devices;
    } else {
      var front := devices[..|devices| - 1];
      assert front[..i] == devices[..i];
      FillerFull(front, i, taken, budget);
    }
  }

  // ------------------------------------------------------ how the rest is filled

  lemma {:induction false} OwedInItsStratum(devices: seq<Device>, keys: seq<string>, least: nat, d: Device)
    requires Distinct(keys)
    ensures d in Guaranteed(devices, keys, least) <==>
              d.stratum in keys && d in Stratum(devices, d.stratum)[..Min(|Stratum(devices, d.stratum)|, least)]
  {
    hide Distinct, Stratum;
    if keys != [] {
      var (front, last) := (keys[..|keys| - 1], keys[|keys| - 1]);
      DistinctFront(keys);
      OwedInItsStratum(devices, front, least, d);
      assert keys == front + [last];
      var stratum := Stratum(devices, last);
      TakenFrom(stratum, Min(|stratum|, least), d);
    }
  }

  lemma TakenFrom(s: seq<Device>, k: nat, d: Device)
    requires k <= |s|
    ensures d in s[..k] ==> d in s
  {
  }

  /** In its stratum a device stands behind those of its stratum that are listed before it. */
  lemma {:induction false} PlaceInStratum(devices: seq<Device>, i: nat)
    requires i < |devices|
    ensures var (key, place) := (devices[i].stratum, |Stratum(devices[..i], devices[i].stratum)|);
            place < |Stratum(devices, key)| && Stratum(devices, key)[place] == devices[i]
  {
    var key := devices[i].stratum;
    assert devices == devices[..i] + ([devices[i]] + devices[i + 1..]);
    StratumOfJoin(devices[..i], [devices[i]] + devices[i + 1..], key);
    StratumOfJoin([devices[i]], devices[i + 1..], key);
    StratumWhole([devices[i]], key);
  }

  lemma DistinctPlace(s: seq<Device>, place: nat, k: nat)
    requires Distinct(s) && place < |s| && k <= |s|
    ensures s[place] in s[..k] <==> place < k
  {
    if place < k {
      assert s[..k][place] == s[place];
    }
  }

  /** A device is owed to its stratum exactly when fewer than `least` of its stratum are listed before it. */
  lemma FirstOfStratumIsOwed(devices: seq<Device>, least: nat, i: nat)
    requires Distinct(devices) && i < |devices|
    ensures devices[i] in Guaranteed(devices, Strata(devices), least) <==>
              |Stratum(devices[..i], devices[i].stratum)| < least
  {
    var key := devices[i].stratum;
    var (stratum, place) := (Stratum(devices, key), |Stratum(devices[..i], key)|);
    StrataAreStrata(devices);
    StrataAreDistinct(devices, Strata(devices));
    assert key in Strata(devices) by { assert devices[i] in devices; }
    hide Distinct, Stratum, Strata, Guaranteed, AreStrata;
    OwedInItsStratum(devices, Strata(devices), least, devices[i]);
    StratumDistinct(devices, key);
    PlaceInStratum(devices, i);
    DistinctPlace(stratum, place, Min(|stratum|, least));
  }

  /** What is left of the budget once every stratum has its minimum. */
  function Rest(devices: seq<Device>, least: nat): nat {
    var owed := Guaranteed(devices, Strata(devices), least);
    Max(|owed|, |devices| / 100) - |owed|
  }

  /** Device `i` is not owed to its stratum and stands among the first `Rest` such devices. */
  predicate FirstCome(devices: seq<Device>, least: nat, i: nat)
    requires i < |devices|
  {
    var taken := Elements(Guaranteed(devices, Strata(devices), least));
    devices[i] !in taken && |Elements(devices[..i]) - taken| < Rest(devices, least)
  }

  lemma {:induction false} FillerTakesFirst(devices: seq<Device>, taken: set<Device>, budget: nat, i: nat)
    requires Distinct(devices) && i < |devices|
    ensures devices[i] in Filler(devices, taken, budget) <==>
              devices[i] !in taken && |Elements(devices[..i]) - taken| < budget
  {
    hide Elements, Distinct;
    var (front, last) := (devices[..|devices| - 1], devices[|devices| - 1]);
    DistinctFront(devices);
    if i == |devices| - 1 {
      FillerCount(front, taken, budget);
    } else {
      FillerTakesFirst(front, taken, budget, i);
      assert front[..i] == devices[..i] && front[i] == devices[i] && front[i] in front;
    }
  }

  /** The rest goes by position, not by stratum: a device beyond the minimum is drawn exactly when it comes
      early enough in the list. */
  lemma RestIsFirstCome(devices: seq<Device>, least: nat, i: nat)
    requires Distinct(devices) && i < |devices|
    ensures devices[i] in Cohort(devices, least) <==>
              devices[i] in Guaranteed(devices, Strata(devices), least) || FirstCome(devices, least, i)
  {
    hide Guaranteed, Strata, Distinct, Filler;
    var owed := Guaranteed(devices, Strata(devices), least);
    FillerTakesFirst(devices, Elements(owed), Rest(devices, least), i);
  }

  /** A stratum gets a share of the rest exactly when one of its devices comes early enough. */
  lemma ShareOfTheRest(devices: seq<Device>, least: nat, key: string)
    requires Distinct(devices)
    ensures |Stratum(Cohort(devices, least), key)| > |Stratum(Guaranteed(devices, Strata(devices), least), key)| <==>
              exists i :: 0 <= i < |devices| && devices[i].stratum == key && FirstCome(devices, least, i)
  {
    var filler := TopUp(devices, least);
    StratumOfCohort(devices, least, key);
    hide *;
    var share := Stratum(filler, key);
    if share != [] {
      assert share[0] in share;
      assert share[0] in filler && share[0] in devices;
      var i :| 0 <= i < |devices| && devices[i] == share[0];
      TopUpIsFirstCome(devices, least, i);
    }
    if i :| 0 <= i < |devices| && devices[i].stratum == key && FirstCome(devices, least, i) {
      TopUpIsFirstCome(devices, least, i);
      assert devices[i] in share;
    }
  }

  /** The part of the cohort beyond what the strata are owed. */
  function TopUp(devices: seq<Device>, least: nat): (r: seq<Device>)
    ensures forall d :: d in r ==> d in devices
  {
    Filler(devices, Elements(Guaranteed(devices, Strata(devices), least)), Rest(devices, least))
  }

  lemma TopUpIsFirstCome(devices: seq<Device>, least: nat, i: nat)
    requires Distinct(devices) && i < |devices|
    ensures devices[i] in TopUp(devices, least) <==> FirstCome(devices, least, i)
  {
    hide Guaranteed, Strata, Distinct, Filler, Rest, Elements;
    FillerTakesFirst(devices, Elements(Guaranteed(devices, Strata(devices), least)), Rest(devices, least), i);
  }

  lemma CohortParts(devices: seq<Device>, least: nat)
    ensures Cohort(devices, least) == Guaranteed(devices, Strata(devices), least) + TopUp(devices, least)
  {
    hide Guaranteed, Strata, Filler, Elements;
  }

  lemma StratumOfCohort(devices: seq<Device>, least: nat, key: string)
    ensures Stratum(Cohort(devices, least), key) ==
            Stratum(Guaranteed(devices, Strata(devices), least), key) + Stratum(TopUp(devices, least), key)
  {
    CohortParts(devices, least);
    hide *;
    StratumOfJoin(Guaranteed(devices, Strata(devices), least), TopUp(devices, least), key);
  }

  /** The rest is not filled proportionally: devices of one stratum at the head of the list, enough of them
      for its minimum and one in a hundred, take all of it, and every other stratum keeps its bare minimum. */
  lemma HeadOfListTakesTheRest(a: seq<Device>, b: seq<Device>, least: nat, head: string, key: string)
    requires Distinct(a + b) && forall d :: d in a ==> d.stratum == head
    requires |a| >= least + |a + b| / 100
    ensures |Stratum(Cohort(a + b, least), key)| ==
            Min(|Stratum(a + b, key)|, least) + if key == head then Rest(a + b, least) else 0
  {
    var devices := a + b;
    StratumOfCohort(devices, least, key);
    MinimumIsExact(devices, least, key);
    TopUpIsOfHead(a, b, least, head);
    TopUpCount(devices, least);
    hide *;
    if key == head {
      StratumWhole(TopUp(devices, least), key);
    } else {
      EmptyStratum(TopUp(devices, least), key);
    }
  }

  lemma TopUpCount(devices: seq<Device>, least: nat)
    requires Distinct(devices)
    ensures |TopUp(devices, least)| == Rest(devices, least) <= |devices| / 100
  {
    hide Cohort, TopUp, Guaranteed, Strata, Stratum, Owed, Distinct;
    assert |Cohort(devices, least)| == Max(|Guaranteed(devices, Strata(devices), least)|, |devices| / 100) by {
      CohortIsStratified(devices, least);
      GuaranteedFacts(devices, Strata(devices), least);
    }
    CohortParts(devices, least);
  }

  lemma MinimumIsExact(devices: seq<Device>, least: nat, key: string)
    ensures |Stratum(Guaranteed(devices, Strata(devices), least), key)| == Min(|Stratum(devices, key)|, least)
  {
    hide Distinct, Stratum, Guaranteed, Strata;
    StrataAreStrata(devices);
    StrataAreDistinct(devices, Strata(devices));
    ServedOnce(devices, Strata(devices), least, key);
    if key !in Strata(devices) {
      EmptyStratum(devices, key);
    }
  }

  lemma TopUpIsOfHead(a: seq<Device>, b: seq<Device>, least: nat, head: string)
    requires Distinct(a + b) && forall d :: d in a ==> d.stratum == head
    requires |a| >= least + |a + b| / 100
    ensures forall d :: d in TopUp(a + b, least) ==> d.stratum == head
  {
    var devices := a + b;
    TopUpCount(devices, least);
    hide Distinct, TopUp, Guaranteed, Rest;
    forall d | d in TopUp(devices, least)
      ensures d.stratum == head
    {
      var i :| 0 <= i < |devices| && devices[i] == d;
      TopUpIsFirstCome(devices, least, i);
      if i >= |a| {
        FreeAtHead(a, b, least, head, i);
        assert false;
      }
    }
  }

  lemma OwnShare(devices: seq<Device>, least: nat, key: string)
    requires Distinct(devices)
    ensures var own := Stratum(Guaranteed(devices, Strata(devices), least), key);
            Distinct(own) && |own| <= least
  {
    MinimumIsExact(devices, least, key);
    StrataAreStrata(devices);
    StrataAreDistinct(devices, Strata(devices));
    GuaranteedFacts(devices, Strata(devices), least);
    hide Stratum, Guaranteed, Strata, AreStrata, Owed;
    StratumDistinct(Guaranteed(devices, Strata(devices), least), key);
  }

  /** Past the head of the list, more devices stand free than the rest can take. */
  lemma FreeAtHead(a: seq<Device>, b: seq<Device>, least: nat, head: string, i: nat)
    requires Distinct(a + b) && forall d :: d in a ==> d.stratum == head
    requires |a| <= i < |a + b|
    ensures |a| - least <= |Elements((a + b)[..i]) - Elements(Guaranteed(a + b, Strata(a + b), least))|
  {
    OwnShare(a + b, least, head);
    assert Distinct(a) by {
      assert (a + b)[..|a|] == a;
      DistinctTake(a + b, |a|);
    }
    hide *;
    var owed := Guaranteed(a + b, Strata(a + b), least);
    assert (a + b)[..i] == a + b[..i - |a|];
    FreeOfHead(a, b[..i - |a|], owed, Stratum(owed, head));
  }

  lemma FreeOfHead(a: seq<Device>, b: seq<Device>, owed: seq<Device>, own: seq<Device>)
    requires Distinct(a) && Distinct(own) && forall d :: d in a && d in owed ==> d in own
    ensures |a| - |own| <= |Elements(a + b) - Elements(owed)|
  {
    DistinctCount(a);
    DistinctCount(own);
    var (heads, taken) := (Elements(a), Elements(owed));
    SubsetSize(heads * taken, Elements(own));
    assert heads == (heads - taken) + (heads * taken);
    SubsetSize(heads - taken, Elements(a + b) - taken);
  }
}
