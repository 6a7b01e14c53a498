/**
 * The rank-tier tables (ROLES, REV_ROLES, ROLES_VALUE, USER_NEWBEST_LIMIT,
 * ROLE_TRESHOLDS) and the rank-to-tier mapper get_role_with_rank.
 *
 * The twelve keys of ROLES become the closed type Tier, in declaration order;
 * the last two, Restricted and Inactive, are the account-state sentinels.
 */
module Tiers {
  import opened Wrappers

  datatype Tier =
    | LV1 | LV5 | LV10 | LV25 | LV50 | LV100 | LV250 | LV500 | LV1000 | LVinf
    | Restricted | Inactive
  {
    /** A tier that a country rank can produce (every key but the two sentinels). */
    predicate IsRankTier() {
      !Restricted? && !Inactive?
    }
  }

  /** The keys of ROLES in declaration order. */
  const AllTiers: seq<Tier> :=
    [LV1, LV5, LV10, LV25, LV50, LV100, LV250, LV500, LV1000, LVinf, Restricted, Inactive]

  /** The rank tiers, best first: the keys of USER_NEWBEST_LIMIT. */
  const RankTiers: seq<Tier> := AllTiers[..10]

  /** The dictionary key of a tier. */
  function Name(t: Tier): string {
    match t
    case LV1 => "LV1"
    case LV5 => "LV5"
    case LV10 => "LV10"
    case LV25 => "LV25"
    case LV50 => "LV50"
    case LV100 => "LV100"
    case LV250 => "LV250"
    case LV500 => "LV500"
    case LV1000 => "LV1000"
    case LVinf => "LVinf"
    case Restricted => "restricted"
    case Inactive => "inactive"
  }

  /** ROLES: the Discord role id bound to each tier. */
  function RoleId(t: Tier): int {
    match t
    case LV1 => 202057149860282378
    case LV5 => 202061474213003265
    case LV10 => 202061507037495296
    case LV25 => 202061546787045377
    case LV50 => 202061582006485002
    case LV100 => 202061613644251136
    case LV250 => 297854952435351552
    case LV500 => 915646723588751391
    case LV1000 => 915647090581966858
    case LVinf => 915647192755212289
    case Restricted => 348195423841943564
    case Inactive => 964604143912255509
  }

  /** ROLES_VALUE: `enumerate(ROLES.keys())`, the position of the key in ROLES. */
  function Value(t: Tier): nat {
    match t
    case LV1 => 0
    case LV5 => 1
    case LV10 => 2
    case LV25 => 3
    case LV50 => 4
    case LV100 => 5
    case LV250 => 6
    case LV500 => 7
    case LV1000 => 8
    case LVinf => 9
    case Restricted => 10
    case Inactive => 11
  }

  /** REV_ROLES restricted to the tiers in `ts`: the tier whose ROLES id is `id`, if any. */
  function RoleLookup(id: int, ts: seq<Tier>): (r: Option<Tier>)
    ensures r.Some? ==> r.value in ts && RoleId(r.value) == id
    ensures r.None? ==> forall t :: t in ts ==> RoleId(t) != id
  {
    if ts == [] then None
    else if RoleId(ts[0]) == id then Some(ts[0])
    else RoleLookup(id, ts[1..])
  }

  /** `REV_ROLES[id]` when `id in ROLES.values()`, None otherwise. */
  function TierOfRole(id: int): (r: Option<Tier>)
    ensures r.Some? <==> exists t :: RoleId(t) == id
    ensures r.Some? ==> RoleId(r.value) == id
  {
    var r := RoleLookup(id, AllTiers);
    assert forall t: Tier :: t in AllTiers by {
      forall t: Tier ensures t in AllTiers { ValueIsDeclarationIndex(t); }
    }
    r
  }

  /** The names and role ids of ROLES are pairwise distinct across tiers. */
  lemma RolesInjective(t: Tier, u: Tier)
    requires t != u
    ensures RoleId(t) != RoleId(u) && Name(t) != Name(u) && Value(t) != Value(u)
  {
  }

  /** REV_ROLES inverts ROLES in both directions. */
  lemma RevRolesInvertsRoles(t: Tier, id: int)
    ensures TierOfRole(RoleId(t)) == Some(t)
    ensures TierOfRole(id).Some? ==> RoleId(TierOfRole(id).value) == id
  {
    if TierOfRole(RoleId(t)) != Some(t) {
      RolesInjective(t, TierOfRole(RoleId(t)).value);
    }
  }

  /** ROLES_VALUE numbers the keys 0..11 in declaration order; only sentinels exceed 9. */
  lemma ValueIsDeclarationIndex(t: Tier)
    ensures Value(t) < |AllTiers| && AllTiers[Value(t)] == t
    ensures Value(t) > 9 <==> !t.IsRankTier()
    ensures t.IsRankTier() <==> t in RankTiers
  {
  }

  /**
   * get_role_with_rank. The match in the source has no case for a rank
   * below 1, so the result is None there.
   */
  function TierForRank(rank: int): (r: Option<Tier>)
    ensures r.Some? <==> rank >= 1
    ensures r.Some? ==> r.value.IsRankTier()
  {
    if rank == 1 then Some(LV1)
    else if 2 <= rank < 6 then Some(LV5)
    else if 6 <= rank < 11 then Some(LV10)
    else if 11 <= rank < 26 then Some(LV25)
    else if 26 <= rank < 51 then Some(LV50)
    else if 51 <= rank < 101 then Some(LV100)
    else if 101 <= rank < 251 then Some(LV250)
    else if 251 <= rank < 501 then Some(LV500)
    else if 501 <= rank < 1001 then Some(LV1000)
    else if rank > 1000 then Some(LVinf)
    else None
  }

  /** ROLE_TRESHOLDS, in declaration order: the inclusive upper rank of each bounded tier. */
  const Thresholds: seq<(Tier, int)> :=
    [(LV1, 1), (LV5, 5), (LV10, 10), (LV25, 25), (LV50, 50),
     (LV100, 100), (LV250, 250), (LV500, 500), (LV1000, 1000)]

  /** Reference mapper: the first tier of ROLE_TRESHOLDS from entry i on whose bound reaches the rank, else LVinf. */
  function TierByThresholds(rank: int, i: nat): Tier
    decreases |Thresholds| - i
  {
    if i >= |Thresholds| then LVinf
    else if rank <= Thresholds[i].1 then Thresholds[i].0
    else TierByThresholds(rank, i + 1)
  }

  /** ROLE_TRESHOLDS has strictly increasing bounds and lists the first nine tiers in order. */
  lemma ThresholdsIncreasing()
    ensures |Thresholds| == 9
    ensures forall i :: 0 <= i < |Thresholds| ==> Thresholds[i].0 == RankTiers[i]
    ensures forall i, j :: 0 <= i < j < |Thresholds| ==> Thresholds[i].1 < Thresholds[j].1
  {
  }

  /** Above the bound of entry i - 1, the scan from entry i already gives get_role_with_rank's tier. */
  lemma {:induction false} ThresholdScanFrom(rank: int, i: nat)
    requires i <= |Thresholds|
    requires i == 0 ==> rank >= 1
    requires i > 0 ==> rank > Thresholds[i - 1].1
    ensures TierForRank(rank) == Some(TierByThresholds(rank, i))
    decreases |Thresholds| - i
  {
    if i < |Thresholds| && rank > Thresholds[i].1 {
      ThresholdScanFrom(rank, i + 1);
    }
  }

  /** get_role_with_rank agrees with the thresholds table on every positive rank. */
  lemma TierForRankMatchesThresholds(rank: int)
    requires rank >= 1
    ensures TierForRank(rank) == Some(TierByThresholds(rank, 0))
  {
    ThresholdScanFrom(rank, 0);
  }

  /** The inclusive lower rank of a rank tier: one above the bound of the tier before it. */
  function LowerBound(t: Tier): int
    requires t.IsRankTier()
  {
    if t == LV1 then 1 else Thresholds[Value(t) - 1].1 + 1
  }

  /**
   * The rank tiers partition the positive integers: a rank maps to tier t exactly
   * when it lies between t's lower bound and its ROLE_TRESHOLDS bound (LVinf is unbounded).
   */
  lemma TierForRankPartition(rank: int, t: Tier)
    requires t.IsRankTier()
    ensures TierForRank(rank) == Some(t) <==>
      LowerBound(t) <= rank && (t == LVinf || rank <= Thresholds[Value(t)].1)
  {
  }

  /** A better (smaller) rank never yields a worse tier. */
  lemma TierForRankMonotonic(r1: int, r2: int)
    requires 1 <= r1 <= r2
    ensures Value(TierForRank(r1).value) <= Value(TierForRank(r2).value)
  {
  }

  /** The boundary ranks of the tier table. */
  lemma TierForRankBoundaries()
    ensures TierForRank(1) == Some(LV1) && TierForRank(2) == Some(LV5)
    ensures TierForRank(5) == Some(LV5) && TierForRank(6) == Some(LV10)
    ensures TierForRank(10) == Some(LV10) && TierForRank(11) == Some(LV25)
    ensures TierForRank(25) == Some(LV25) && TierForRank(26) == Some(LV50)
    ensures TierForRank(1000) == Some(LV1000) && TierForRank(1001) == Some(LVinf)
    ensures TierForRank(99999) == Some(LVinf) && TierForRank(0) == None
  {
  }

  /** USER_NEWBEST_LIMIT: how deep into a player's best list a new score may sit to be posted. */
  function NewbestLimit(t: Tier): (limit: int)
    requires t.IsRankTier()
    ensures 1 <= limit <= 100
  {
    match t
    case LV1 => 100
    case LV5 => 80
    case LV10 => 60
    case LV25 => 50
    case LV50 => 30
    case LV100 => 20
    case LV250 => 15
    case LV500 => 10
    case LV1000 => 5
    case LVinf => 1
  }

  /** The newbest limit strictly decreases from LV1 (100) to LVinf (1). */
  lemma NewbestLimitDecreasing(t: Tier, u: Tier)
    requires t.IsRankTier() && u.IsRankTier()
    requires Value(t) < Value(u)
    ensures NewbestLimit(t) > NewbestLimit(u)
    ensures NewbestLimit(LV1) == 100 && NewbestLimit(LVinf) == 1
  {
  }
}
