/** The thermal governor: a ladder of four rungs, climbed at once and descended with hysteresis. */
module ThermalGovernor {
  import opened Options

  datatype ThermalState = Nominal | Elevated | Severe | CriticalCompound

  datatype Variant = FourBit | TwoBit | Unavailable

  /** `escalationBar` is absent for the infinite bar. */
  datatype CascadePolicy = CascadePolicy(maxTier: nat, variant: Variant, escalationBar: Option<real>, notice: bool)

  function PolicyOf(s: ThermalState): CascadePolicy {
    match s
    case Nominal => CascadePolicy(2, FourBit, Some(1.0), false)
    case Elevated => CascadePolicy(2, FourBit, Some(1.5), false)
    case Severe => CascadePolicy(2, TwoBit, Some(2.0), false)
    case CriticalCompound => CascadePolicy(0, Unavailable, None, true)
  }

  predicate NoStricter(a: CascadePolicy, b: CascadePolicy) {
    && a.maxTier >= b.maxTier
    && (a.escalationBar.None? ==> b.escalationBar.None?)
    && (a.escalationBar.Some? && b.escalationBar.Some? ==> a.escalationBar.value <= b.escalationBar.value)
    && (a.variant.TwoBit? ==> !b.variant.FourBit?) && (a.variant.Unavailable? ==> b.variant.Unavailable?)
    && (a.notice ==> b.notice)
  }

  /** A higher rung never allows more; the small variant runs on the severe rung alone, and nothing on the top. */
  lemma PolicyTightens(a: ThermalState, b: ThermalState)
    ensures Rank(a) <= Rank(b) ==> NoStricter(PolicyOf(a), PolicyOf(b))
    ensures PolicyOf(a).variant.TwoBit? <==> a == Severe
    ensures PolicyOf(a).variant.Unavailable? <==> PolicyOf(a).escalationBar.None?
    ensures PolicyOf(a).maxTier == 0 <==> a == CriticalCompound
    ensures PolicyOf(a).escalationBar.None? <==> a == CriticalCompound
  {
  }

  const HYSTERESIS_MARGIN := 0.05

  function Rank(s: ThermalState): nat {
    match s
    case Nominal => 0
    case Elevated => 1
    case Severe => 2
    case CriticalCompound => 3
  }

  function StateOfRank(rank: nat): ThermalState {
    if rank == 0 then Nominal else if rank == 1 then Elevated else if rank == 2 then Severe else CriticalCompound
  }

  /** The temperature at which a rung above the lowest is entered. */
  function EscalateAt(s: ThermalState): Option<real> {
    match s
    case Nominal => None
    case Elevated => Some(0.70)
    case Severe => Some(0.85)
    case CriticalCompound => Some(0.95)
  }

  /** A temperature as a fraction of the limit, and whether the CPU fallback is active. */
  datatype Reading = Reading(fraction: real, compound: bool)

  function Target(r: Reading): ThermalState {
    if r.compound && r.fraction >= 0.85 then CriticalCompound
    else if r.fraction >= 0.95 then CriticalCompound
    else if r.fraction >= 0.85 then Severe
    else if r.fraction >= 0.70 then Elevated
    else Nominal
  }

  predicate CanDeescalate(s: ThermalState, r: Reading) {
    if r.compound && s == CriticalCompound then false
    else EscalateAt(s) == None || r.fraction <= EscalateAt(s).value - HYSTERESIS_MARGIN
  }

  function OneStepDown(s: ThermalState): ThermalState {
    StateOfRank(if Rank(s) == 0 then 0 else Rank(s) - 1)
  }

  function Next(s: ThermalState, r: Reading): ThermalState {
    var target := Target(r);
    if target == s then s
    else if Rank(target) > Rank(s) then target
    else if CanDeescalate(s, r) then OneStepDown(s)
    else s
  }

  function Run(readings: seq<Reading>): ThermalState {
    if readings == [] then Nominal else Next(Run(readings[..|readings| - 1]), readings[|readings| - 1])
  }

  class Governor {
    var state: ThermalState

    constructor ()
      ensures state == Nominal
    {
      state := Nominal;
    }

    /** Feed one reading: never below the rung it calls for, at most one rung down. */
    method Update(r: Reading) returns (policy: CascadePolicy)
      modifies this
      ensures state == Next(old(state), r) && policy == PolicyOf(state)
      ensures Rank(state) >= Rank(Target(r)) && Rank(state) >= Rank(old(state)) - 1
      ensures Rank(state) > Rank(old(state)) ==> state == Target(r)
      ensures policy.notice <==> state == CriticalCompound
    {
      var target := Target(r);
      if target != state {
        if Rank(target) > Rank(state) {
          state := target;
        } else if CanDeescalate(state, r) {
          state := OneStepDown(state);
        }
      }
      policy := PolicyOf(state);
    }
  }

  /** Over every run the rung is never below what the latest reading calls for, falls by at most
      one rung per reading, and rises only to the rung called for. */
  lemma RunRespectsTarget(readings: seq<Reading>)
    requires readings != []
    ensures var before, after, target :=
            Run(readings[..|readings| - 1]), Run(readings), Target(readings[|readings| - 1]);
            && Rank(after) >= Rank(target) && Rank(after) >= Rank(before) - 1
            && (Rank(after) > Rank(before) ==> after == target)
  {
  }

  /** The ladder in degrees: from 0.95, or 0.85 with the fallback, the top rung is reached at once, from 0.85 the
      severe one at least, from 0.70 the elevated one at least; and a rung is kept until the temperature falls
      0.05 below where it is entered, the top one also as long as the fallback is on. */
  lemma ThresholdsOfTheLadder(readings: seq<Reading>)
    requires readings != []
    ensures var before, after, r := Run(readings[..|readings| - 1]), Run(readings), readings[|readings| - 1];
            && (r.fraction >= 0.95 || (r.compound && r.fraction >= 0.85) ==> after == CriticalCompound)
            && (r.fraction >= 0.85 ==> after == Severe || after == CriticalCompound)
            && (r.fraction >= 0.70 ==> after != Nominal)
            && (before == CriticalCompound && (r.fraction > 0.90 || r.compound) ==> after == CriticalCompound)
            && (before == Severe && r.fraction > 0.80 ==> after == Severe || after == CriticalCompound)
            && (before == Elevated && r.fraction > 0.65 ==> after != Nominal)
            && (before == CriticalCompound && r.fraction <= 0.90 && !r.compound ==> after == Severe)
            && (before == Severe && r.fraction <= 0.80 ==> after == Elevated)
            && (before == Elevated && r.fraction <= 0.65 ==> after == Nominal)
            && (before == Nominal && r.fraction < 0.70 ==> after == Nominal)
  {
  }

  // ------------------------------------------------------------- hysteresis

  /** How often a run climbs to rung `rank` or above from below it. */
  function Entries(readings: seq<Reading>, rank: nat): nat {
    if readings == [] then 0
    else
      var front := readings[..|readings| - 1];
      Entries(front, rank) + (if Rank(Run(front)) < rank <= Rank(Run(readings)) then 1 else 0)
  }

  function Rise(a: real, b: real): real {
    if b > a then b - a else 0.0
  }

  /** The total upward movement of the temperature. */
  function Climb(readings: seq<Reading>): real {
    if |readings| < 2 then 0.0
    else Climb(readings[..|readings| - 1]) + Rise(readings[|readings| - 2].fraction, readings[|readings| - 1].fraction)
  }

  /** The fallback readings of a run. */
  function FlagsOf(readings: seq<Reading>): (flags: seq<bool>)
    ensures |flags| == |readings| && forall i :: 0 <= i < |flags| ==> flags[i] == readings[i].compound
  {
    seq(|readings|, i requires 0 <= i < |readings| => readings[i].compound)
  }

  /** After the first reading, the fallback never comes back once it has been off. */
  predicate StaysOff(flags: seq<bool>) {
    forall i, j :: 1 <= i < j < |flags| && !flags[i] ==> !flags[j]
  }

  /** What has been climbed beyond the re-entries counted so far, while below the rung again. */
  function Credit(readings: seq<Reading>, rank: nat): real
    requires 1 <= rank <= 3
  {
    if readings == [] || Rank(Run(readings)) >= rank then 0.0
    else Rise(EscalateAt(StateOfRank(rank)).value - HYSTERESIS_MARGIN, readings[|readings| - 1].fraction)
  }

  /** The two rungs below the top pay for every re-entry whatever the fallback does; the top rung does as
      long as the fallback stays off once off. */
  lemma {:induction false} EntriesCost(readings: seq<Reading>, rank: nat)
    requires 1 <= rank <= 3 && (rank == 3 ==> StaysOff(FlagsOf(readings)))
    ensures Entries(readings, rank) == 0 ==> Rank(Run(readings)) < rank
    ensures rank == 3 && Entries(readings, rank) >= 1 && Rank(Run(readings)) < 3 ==>
              |readings| >= 2 && !readings[|readings| - 1].compound
    ensures Entries(readings, rank) >= 1 ==>
              Climb(readings) >= HYSTERESIS_MARGIN * (Entries(readings, rank) - 1) as real + Credit(readings, rank)
  {
    if readings != [] {
      var front := readings[..|readings| - 1];
      if rank == 3 {
        StaysOffFront(readings);
      }
      EntriesCost(front, rank);
      assert front != [] ==> readings[|readings| - 2] == front[|front| - 1];
      assert Climb(front) >= 0.0 by { ClimbNonNegative(front); }
    }
  }

  lemma StaysOffFront(readings: seq<Reading>)
    requires readings != [] && StaysOff(FlagsOf(readings))
    ensures StaysOff(FlagsOf(readings[..|readings| - 1]))
    ensures |readings| >= 3 && !readings[|readings| - 2].compound ==> !readings[|readings| - 1].compound
  {
    var flags := FlagsOf(readings);
    assert |readings| >= 3 ==> flags[|flags| - 2] == readings[|readings| - 2].compound;
  }

  lemma {:induction false} ClimbNonNegative(readings: seq<Reading>)
    ensures Climb(readings) >= 0.0
  {
    if |readings| >= 2 {
      ClimbNonNegative(readings[..|readings| - 1]);
    }
  }

  /** Every entry of a rung after the first is paid for by 0.05 of upward movement. */
  predicate PaysForEntries(readings: seq<Reading>, rank: nat) {
    Entries(readings, rank) >= 1 ==> Climb(readings) >= 0.05 * (Entries(readings, rank) - 1) as real
  }

  /** Hysteresis below the top: on every run, with or without the CPU fallback, `k` re-entries of the
      elevated or the severe rung cost the temperature a total upward movement of at least `0.05 * k`. */
  lemma ReentryCostsClimb(readings: seq<Reading>, rank: nat)
    requires 1 <= rank <= 2
    ensures PaysForEntries(readings, rank)
  {
    EntriesCost(readings, rank);
  }

  /** The runs that follow one schedule of the fallback. */
  ghost predicate Follows(readings: seq<Reading>, flags: seq<bool>) {
    FlagsOf(readings) == flags
  }

  /** Hysteresis at the top: every run under a fallback schedule pays for its re-entries of the top rung
      if and only if, after the first reading, the schedule never turns the fallback on once it was off. */
  lemma TopRungHysteresis(flags: seq<bool>)
    ensures (forall readings :: Follows(readings, flags) ==> PaysForEntries(readings, 3)) <==> StaysOff(flags)
  {
    if StaysOff(flags) {
      forall readings | Follows(readings, flags)
        ensures PaysForEntries(readings, 3)
      {
        EntriesCost(readings, 3);
      }
    } else {
      var i, j :| 1 <= i < j < |flags| && !flags[i] && flags[j];
      var k := LastOff(flags, i, j);
      FallbackDefeatsHysteresis(flags, k);
    }
  }

  /** Between a reading without the fallback and a later one with it, it is turned on somewhere. */
  lemma {:induction false} LastOff(flags: seq<bool>, i: nat, j: nat) returns (k: nat)
    requires i < j < |flags| && !flags[i] && flags[j]
    ensures i <= k < k + 1 < |flags| && !flags[k] && flags[k + 1]
    decreases j
  {
    if flags[j - 1] {
      k := LastOff(flags, i, j - 1);
    } else {
      k := j - 1;
    }
  }

  /** A run that only ever cools: 0.95 until reading `k`, 0.90 from there on. */
  function Cooling(flags: seq<bool>, k: nat): (readings: seq<Reading>)
    ensures |readings| == |flags|
    ensures forall i :: 0 <= i < |flags| ==> readings[i] == Reading(if i < k then 0.95 else 0.90, flags[i])
  {
    seq(|flags|, i requires 0 <= i < |flags| => Reading(if i < k then 0.95 else 0.90, flags[i]))
  }

  /** Turning the fallback on again re-enters the top rung while the temperature never rises. */
  lemma FallbackDefeatsHysteresis(flags: seq<bool>, k: nat)
    requires 1 <= k < k + 1 < |flags| && !flags[k] && flags[k + 1]
    ensures var readings := Cooling(flags, k);
            && Follows(readings, flags) && Climb(readings) == 0.0
            && Entries(readings, 3) >= 2 && !PaysForEntries(readings, 3)
  {
    var readings := Cooling(flags, k);
    StaysOnTop(readings, k);
    var first, off, on := readings[..k], readings[..k + 1], readings[..k + 2];
    assert off[..k] == first && on[..k + 1] == off;
    assert Run(off) == Severe && Run(on) == CriticalCompound;
    EntriesGrow(readings, 3, k + 2);
    NeverRises(readings);
  }

  /** At 0.95 the top rung is entered at once and kept. */
  lemma {:induction false} StaysOnTop(readings: seq<Reading>, k: nat)
    requires 1 <= k <= |readings| && forall i :: 0 <= i < k ==> readings[i].fraction == 0.95
    ensures Run(readings[..k]) == CriticalCompound && Entries(readings[..k], 3) == 1
  {
    assert readings[..k][..k - 1] == readings[..k - 1];
    if k > 1 {
      StaysOnTop(readings, k - 1);
    }
  }

  lemma {:induction false} EntriesGrow(readings: seq<Reading>, rank: nat, k: nat)
    requires k <= |readings|
    ensures Entries(readings, rank) >= Entries(readings[..k], rank)
    decreases |readings|
  {
    if k == |readings| {
      assert readings[..k] == readings;
    } else {
      assert readings[..|readings| - 1][..k] == readings[..k];
      EntriesGrow(readings[..|readings| - 1], rank, k);
    }
  }

  lemma {:induction false} NeverRises(readings: seq<Reading>)
    requires forall i :: 0 < i < |readings| ==> readings[i].fraction <= readings[i - 1].fraction
    ensures Climb(readings) == 0.0
  {
    if |readings| >= 2 {
      NeverRises(readings[..|readings| - 1]);
    }
  }

  /** Recovery is damped: each further reading at or below 0.65 without the fallback takes exactly one
      rung off, until the ladder is clear. */
  lemma {:induction false} Recovery(readings: seq<Reading>, cool: seq<Reading>)
    requires forall i :: 0 <= i < |cool| ==> !cool[i].compound && cool[i].fraction <= 0.65
    ensures Rank(Run(readings + cool)) == if Rank(Run(readings)) > |cool| then Rank(Run(readings)) - |cool| else 0
  {
    if cool == [] {
      assert readings + cool == readings;
    } else {
      assert (readings + cool)[..|readings + cool| - 1] == readings + cool[..|cool| - 1];
      Recovery(readings, cool[..|cool| - 1]);
    }
  }
}
