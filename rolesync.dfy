/**
 * The rank-tier role synchroniser (refresh_roles): it builds the country
 * leaderboard snapshot, then walks the linked players, derives each guild
 * member's current tier from their live roles, classifies the transition and
 * swaps the tier role, queueing a role-change message for every swap.
 *
 * Two versions are modelled: the one in bot.py (Original) and the cog in
 * src/cogs/roles.py (Current), which adds the reference-account outage guard
 * and the `unrestricted` event.
 */
module RoleSync {
  import opened Wrappers
  import opened Tiers
  import opened Guild
  import Ranking
  import Players

  datatype Version = Original | Current

  /** What `osuapi.get_user(id)` answers: `{"error": None}`, or a profile with its ranked flag. */
  datatype User = NotFound | Found(isRanked: bool)

  /** The osu! user lookup during one run, by osu! id. */
  type Users = int -> User

  /** The account the Current version asks for to tell an outage from a restriction. */
  const ReferenceUser: int := 2

  /**
   * The `notikums` of send_rolechange_msg: no_previous_role, pacelas (promoted),
   * nokritas (demoted), restricted, unrestricted and inactive.
   */
  datatype Event = NoPreviousRole | Promoted | Demoted | BecameRestricted | Unrestricted | BecameInactive

  /** Leave the member alone, or swap their tier role for `to` and announce `event`. */
  datatype Decision = Keep | Swap(to: Tier, event: Event)

  /** The osu! ids looked up for a member, in order, and what is done to the member. */
  datatype Outcome = Outcome(lookups: seq<int>, decision: Decision)

  /** A queued send_rolechange_msg. */
  datatype Notice = Notice(discordId: int, event: Event, tier: Tier)

  /** Guild roles, the messages sent so far and the osu! ids looked up so far. */
  datatype Sync = Sync(members: Members, notices: seq<Notice>, lookups: seq<int>)

  /** The decision for a member whose tier was computed from their rank. */
  function RankedDecision(v: Version, newTier: Tier, current: Option<Tier>): Decision {
    if current.None? then Swap(newTier, NoPreviousRole)
    else if v == Current && current.value == Restricted then Swap(newTier, Unrestricted)
    else if newTier == current.value then Keep
    else if Value(newTier) < Value(current.value) then Swap(newTier, Promoted)
    else if Value(newTier) > Value(current.value) then Swap(newTier, Demoted)
    else Keep
  }

  /** The decision for a restricted or inactive account: nothing when the member already has that role. */
  function SentinelDecision(sentinel: Tier, event: Event, current: Option<Tier>): Decision {
    if current == Some(sentinel) then Keep else Swap(sentinel, event)
  }

  /** The classification of one guild member with a linked account. */
  function Classify(v: Version, rank: int, current: Option<Tier>, osuId: int, users: Users): (o: Outcome)
    requires rank >= 1
  {
    if rank == Ranking.NotRanked then
      match users(osuId)
      case NotFound =>
        if v == Current then
          if users(ReferenceUser).NotFound? then Outcome([osuId, ReferenceUser], Keep)
          else Outcome([osuId, ReferenceUser], SentinelDecision(Restricted, BecameRestricted, current))
        else Outcome([osuId], SentinelDecision(Restricted, BecameRestricted, current))
      case Found(ranked) =>
        if !ranked then Outcome([osuId], SentinelDecision(Inactive, BecameInactive, current))
        else Outcome([osuId], RankedDecision(v, TierForRank(rank).value, current))
    else
      Outcome([], RankedDecision(v, TierForRank(rank).value, current))
  }

  /** What the classification of one member means. */
  lemma ClassifyMeaning(v: Version, rank: int, current: Option<Tier>, osuId: int, users: Users)
    requires rank >= 1
    // The account is looked up exactly when it is missing from the snapshot, reference account second.
    ensures var o := Classify(v, rank, current, osuId, users); o.lookups == [] <==> rank != Ranking.NotRanked
    ensures var o := Classify(v, rank, current, osuId, users); o.lookups != [] ==> o.lookups[0] == osuId && |o.lookups| <= 2
    ensures var o := Classify(v, rank, current, osuId, users); |o.lookups| == 2 ==> v == Current && o.lookups[1] == ReferenceUser
    // A swap always changes the tier.
    ensures var o := Classify(v, rank, current, osuId, users); o.decision.Swap? ==> current != Some(o.decision.to)
    // A ranked member ends up with the tier of their rank, whichever way.
    ensures var o := Classify(v, rank, current, osuId, users); rank != Ranking.NotRanked ==> (o.decision == Keep <==> current == TierForRank(rank))
    ensures var o := Classify(v, rank, current, osuId, users); rank != Ranking.NotRanked && o.decision.Swap? ==> o.decision.to == TierForRank(rank).value
    // Outage guard.
    ensures var o := Classify(v, rank, current, osuId, users);
      v == Current && rank == Ranking.NotRanked && users(osuId).NotFound? && users(ReferenceUser).NotFound? ==> o.decision == Keep
    ensures var o := Classify(v, rank, current, osuId, users); o.decision == Keep && current.None? ==>
      v == Current && rank == Ranking.NotRanked && users(osuId).NotFound? && users(ReferenceUser).NotFound?
    // What each event means.
    ensures var o := Classify(v, rank, current, osuId, users); o.decision.Swap? && o.decision.event == BecameRestricted <==>
      o.decision.Swap? && o.decision.to == Restricted
    ensures var o := Classify(v, rank, current, osuId, users); o.decision.Swap? && o.decision.to == Restricted ==>
      rank == Ranking.NotRanked && users(osuId).NotFound? && (v == Current ==> users(ReferenceUser).Found?)
    ensures var o := Classify(v, rank, current, osuId, users); o.decision.Swap? && o.decision.event == BecameInactive <==>
      o.decision.Swap? && o.decision.to == Inactive
    ensures var o := Classify(v, rank, current, osuId, users); o.decision.Swap? && o.decision.to == Inactive ==>
      rank == Ranking.NotRanked && users(osuId) == Found(false)
    ensures var o := Classify(v, rank, current, osuId, users); o.decision.Swap? && o.decision.event == NoPreviousRole ==> current.None? && o.decision.to.IsRankTier()
    ensures var o := Classify(v, rank, current, osuId, users); o.decision.Swap? && o.decision.event == Unrestricted ==>
      v == Current && current == Some(Restricted) && o.decision.to.IsRankTier()
    ensures var o := Classify(v, rank, current, osuId, users); o.decision.Swap? && o.decision.event == Promoted ==>
      current.Some? && Value(o.decision.to) < Value(current.value) && o.decision.to.IsRankTier()
    ensures var o := Classify(v, rank, current, osuId, users); o.decision.Swap? && o.decision.event == Demoted ==>
      current.Some? && Value(o.decision.to) > Value(current.value) && o.decision.to.IsRankTier()
    // A swap to a rank tier announces no_previous_role exactly without a tier, unrestricted exactly from restricted in Current.
    ensures var o := Classify(v, rank, current, osuId, users); o.decision.Swap? && o.decision.to.IsRankTier() ==>
      (o.decision.event == NoPreviousRole <==> current.None?) &&
      (o.decision.event == Unrestricted <==> v == Current && current == Some(Restricted))
    // What each lookup answer forces for an account missing from the snapshot.
    ensures var o := Classify(v, rank, current, osuId, users); rank == Ranking.NotRanked ==>
      o.lookups == (if v == Current && users(osuId).NotFound? then [osuId, ReferenceUser] else [osuId])
    ensures var o := Classify(v, rank, current, osuId, users);
      rank == Ranking.NotRanked && users(osuId).NotFound? && (v == Original || users(ReferenceUser).Found?) ==>
        o.decision == (if current == Some(Restricted) then Keep else Swap(Restricted, BecameRestricted))
    ensures var o := Classify(v, rank, current, osuId, users); rank == Ranking.NotRanked && users(osuId) == Found(false) ==>
      o.decision == (if current == Some(Inactive) then Keep else Swap(Inactive, BecameInactive))
    // A ranked account missing from the snapshot is treated as the rank just past the last threshold, LVinf.
    ensures var o := Classify(v, rank, current, osuId, users); rank == Ranking.NotRanked && users(osuId) == Found(true) ==>
      o.decision == Classify(v, 1001, current, osuId, users).decision && TierForRank(1001) == Some(LVinf)
  {
  }

  /** The role id change_role removes: the current tier's, when there is one. */
  function CurrentRoleId(current: Option<Tier>): Option<int> {
    if current.Some? then Some(RoleId(current.value)) else None
  }

  /** A member's roles after a decision. */
  function Apply(roles: seq<int>, d: Decision): seq<int> {
    match d
    case Keep => roles
    case Swap(to, _) => ChangeRole(roles, RoleId(to), CurrentRoleId(CurrentTier(roles)))
  }

  /** The classification of a linked row against the member's live roles. */
  function RowOutcome(v: Version, ranking: seq<int>, users: Users, roles: seq<int>, row: Players.LinkRow): Outcome {
    Classify(v, Ranking.CountryRank(ranking, row.osuId), CurrentTier(roles), row.osuId, users)
  }

  /** One iteration of the loop over the linked rows; rows of non-members are skipped. */
  function SyncRow(v: Version, ranking: seq<int>, users: Users, s: Sync, row: Players.LinkRow): Sync {
    if row.discordId !in s.members then s
    else
      var roles := s.members[row.discordId];
      var o := RowOutcome(v, ranking, users, roles, row);
      match o.decision
      case Keep => s.(lookups := s.lookups + o.lookups)
      case Swap(to, e) =>
        Sync(s.members[row.discordId := Apply(roles, o.decision)],
             s.notices + [Notice(row.discordId, e, to)],
             s.lookups + o.lookups)
  }

  /** The loop over the linked rows, in the order the query returns them. */
  function SyncRows(v: Version, ranking: seq<int>, users: Users, s: Sync, rows: seq<Players.LinkRow>): Sync
    decreases |rows|
  {
    if rows == [] then s
    else SyncRow(v, ranking, users, SyncRows(v, ranking, users, s, rows[..|rows| - 1]), rows[|rows| - 1])
  }

  /** A whole run: None when building the snapshot raised, which the run's single `try` catches. */
  function Refresh(v: Version, board: Ranking.Leaderboard, users: Users, members: Members, table: Players.Table): Option<Sync> {
    match Ranking.CrawlPages(board, Ranking.PageCount)
    case None => None
    case Some(c) => Some(SyncRows(v, c.ids, users, Sync(members, [], []), Players.LinkedRows(table)))
  }

  /** One more row of the loop. */
  lemma SyncRowsStep(v: Version, ranking: seq<int>, users: Users, s: Sync, rows: seq<Players.LinkRow>, i: nat)
    requires i < |rows|
    ensures SyncRows(v, ranking, users, s, rows[..i + 1]) == SyncRow(v, ranking, users, SyncRows(v, ranking, users, s, rows[..i]), rows[i])
  {
    assert rows[..i + 1][..i] == rows[..i];
  }

  /** refresh_roles, with the guild's roles, the players table and the osu! API given as values. */
  method RefreshRoles(v: Version, board: Ranking.Leaderboard, users: Users, members: Members, table: Players.Table)
    returns (r: Option<Sync>)
    ensures r == Refresh(v, board, users, members, table)
  {
    var ranking := Ranking.BuildRanking(board);
    if ranking.None? {
      return None;
    }
    var ids := ranking.value;
    var rows := Players.LinkedRows(table);
    var memberIds := members.Keys;
    var guild := members;
    var notices: seq<Notice> := [];
    var lookups: seq<int> := [];
    for i := 0 to |rows|
      invariant SyncRows(v, ids, users, Sync(members, [], []), rows[..i]) == Sync(guild, notices, lookups)
      invariant guild.Keys == memberIds
    {
      var row := rows[i];
      SyncRowsStep(v, ids, users, Sync(members, [], []), rows, i);
      if row.discordId !in memberIds {
        continue;
      }
      var roles := guild[row.discordId];
      var rank := Ranking.CountryRank(ids, row.osuId);
      var current := CurrentTier(roles);
      var o := Classify(v, rank, current, row.osuId, users);
      lookups := lookups + o.lookups;
      if o.decision.Swap? {
        guild := guild[row.discordId := ChangeRole(roles, RoleId(o.decision.to), CurrentRoleId(current))];
        notices := notices + [Notice(row.discordId, o.decision.event, o.decision.to)];
      }
    }
    assert rows[..|rows|] == rows;
    return Some(Sync(guild, notices, lookups));
  }

  predicate DistinctRows(rows: seq<Players.LinkRow>) {
    forall i, j :: 0 <= i < j < |rows| ==> rows[i].discordId != rows[j].discordId
  }

  /** Every member holds at most one tier role. */
  predicate AllSingle(m: Members) {
    forall d :: d in m ==> SingleTier(m[d])
  }

  /**
   * The run keeps the guild's membership, and a member without a linked row keeps
   * their roles: only members with a row are touched.
   */
  lemma {:induction false} SyncRowsKeepsMembers(v: Version, ranking: seq<int>, users: Users, s: Sync, rows: seq<Players.LinkRow>)
    ensures SyncRows(v, ranking, users, s, rows).members.Keys == s.members.Keys
    ensures forall d :: d in s.members && (forall k :: 0 <= k < |rows| ==> rows[k].discordId != d) ==>
      SyncRows(v, ranking, users, s, rows).members[d] == s.members[d]
    decreases |rows|
  {
    if rows != [] {
      SyncRowsKeepsMembers(v, ranking, users, s, rows[..|rows| - 1]);
    }
  }

  /** What one row adds: at most one message, for that member, and up to two lookups, the row's account first. */
  lemma SyncRowAdds(v: Version, ranking: seq<int>, users: Users, s: Sync, row: Players.LinkRow)
    ensures var r := SyncRow(v, ranking, users, s, row);
      r.members.Keys == s.members.Keys &&
      |s.notices| <= |r.notices| <= |s.notices| + 1 && r.notices[..|s.notices|] == s.notices &&
      (|r.notices| > |s.notices| ==> row.discordId in s.members && r.notices[|s.notices|].discordId == row.discordId)
    ensures var r := SyncRow(v, ranking, users, s, row);
      |s.lookups| <= |r.lookups| <= |s.lookups| + 2 && r.lookups[..|s.lookups|] == s.lookups &&
      forall j :: |s.lookups| <= j < |r.lookups| ==>
        r.lookups[j] == ReferenceUser || (r.lookups[j] == row.osuId && row.discordId in s.members)
  {
    if row.discordId in s.members {
      var roles := s.members[row.discordId];
      ClassifyMeaning(v, Ranking.CountryRank(ranking, row.osuId), CurrentTier(roles), row.osuId, users);
    }
  }

  /** Messages go only to guild members with a linked row, at most one per row. */
  lemma {:induction false} SyncRowsOnlyMembers(v: Version, ranking: seq<int>, users: Users, s: Sync, rows: seq<Players.LinkRow>)
    ensures forall n :: n in SyncRows(v, ranking, users, s, rows).notices ==>
      (n in s.notices || (n.discordId in s.members && exists k :: 0 <= k < |rows| && rows[k].discordId == n.discordId))
    ensures |SyncRows(v, ranking, users, s, rows).notices| <= |s.notices| + |rows|
    decreases |rows|
  {
    if rows != [] {
      var init := rows[..|rows| - 1];
      var prev := SyncRows(v, ranking, users, s, init);
      SyncRowsOnlyMembers(v, ranking, users, s, init);
      SyncRowsKeepsMembers(v, ranking, users, s, init);
      SyncRowAdds(v, ranking, users, prev, rows[|rows| - 1]);
      var r := SyncRows(v, ranking, users, s, rows);
      forall n | n in r.notices
        ensures n in s.notices || (n.discordId in s.members && exists k :: 0 <= k < |rows| && rows[k].discordId == n.discordId)
      {
        var j :| 0 <= j < |r.notices| && r.notices[j] == n;
        if j < |prev.notices| {
          assert r.notices[..|prev.notices|][j] == n;
          if n !in s.notices {
            var k :| 0 <= k < |init| && init[k].discordId == n.discordId;
            assert init[k] == rows[k];
          }
        } else {
          assert rows[|rows| - 1].discordId == n.discordId;
        }
      }
    }
  }

  /** osu! lookups are made only for the accounts of guild members with a row, plus the reference account, at most two per row. */
  lemma {:induction false} SyncRowsOnlyLinkedLookups(v: Version, ranking: seq<int>, users: Users, s: Sync, rows: seq<Players.LinkRow>)
    ensures forall x :: x in SyncRows(v, ranking, users, s, rows).lookups ==>
      (x in s.lookups || x == ReferenceUser || exists k :: 0 <= k < |rows| && rows[k].osuId == x && rows[k].discordId in s.members)
    ensures |SyncRows(v, ranking, users, s, rows).lookups| <= |s.lookups| + 2 * |rows|
    decreases |rows|
  {
    if rows != [] {
      var init := rows[..|rows| - 1];
      var prev := SyncRows(v, ranking, users, s, init);
      SyncRowsOnlyLinkedLookups(v, ranking, users, s, init);
      SyncRowsKeepsMembers(v, ranking, users, s, init);
      SyncRowAdds(v, ranking, users, prev, rows[|rows| - 1]);
      var r := SyncRows(v, ranking, users, s, rows);
      forall x | x in r.lookups
        ensures x in s.lookups || x == ReferenceUser || exists k :: 0 <= k < |rows| && rows[k].osuId == x && rows[k].discordId in s.members
      {
        var j :| 0 <= j < |r.lookups| && r.lookups[j] == x;
        if j < |prev.lookups| {
          assert r.lookups[..|prev.lookups|][j] == x;
          if x !in s.lookups && x != ReferenceUser {
            var k :| 0 <= k < |init| && init[k].osuId == x && init[k].discordId in s.members;
            assert init[k] == rows[k];
          }
        } else if x != ReferenceUser {
          assert rows[|rows| - 1].osuId == x;
        }
      }
    }
  }

  /**
   * Outage containment: in the Current version, when the reference account is not
   * found, the run marks nobody restricted, even if every lookup fails.
   */
  lemma {:induction false} OutageContainment(ranking: seq<int>, users: Users, s: Sync, rows: seq<Players.LinkRow>)
    requires users(ReferenceUser).NotFound?
    ensures forall n :: n in SyncRows(Current, ranking, users, s, rows).notices && n !in s.notices ==>
      n.event != BecameRestricted && n.tier != Restricted
    decreases |rows|
  {
    if rows != [] {
      var prev := SyncRows(Current, ranking, users, s, rows[..|rows| - 1]);
      OutageContainment(ranking, users, s, rows[..|rows| - 1]);
      var row := rows[|rows| - 1];
      if row.discordId in prev.members {
        var roles := prev.members[row.discordId];
        ClassifyMeaning(Current, Ranking.CountryRank(ranking, row.osuId), CurrentTier(roles), row.osuId, users);
      }
    }
  }

  /** A run keeps every member at no more than one tier role. */
  lemma {:induction false} SingleTierPreserved(v: Version, ranking: seq<int>, users: Users, s: Sync, rows: seq<Players.LinkRow>)
    requires AllSingle(s.members)
    ensures AllSingle(SyncRows(v, ranking, users, s, rows).members)
    decreases |rows|
  {
    if rows != [] {
      var prev := SyncRows(v, ranking, users, s, rows[..|rows| - 1]);
      SingleTierPreserved(v, ranking, users, s, rows[..|rows| - 1]);
      var row := rows[|rows| - 1];
      if row.discordId in prev.members {
        var o := RowOutcome(v, ranking, users, prev.members[row.discordId], row);
        if o.decision.Swap? {
          ChangeRoleSetsTier(prev.members[row.discordId], o.decision.to);
        }
      }
    }
  }

  /** A member's roles after the run are their roles before it with their one row's decision applied. */
  lemma {:induction false} FinalRoles(v: Version, ranking: seq<int>, users: Users, s: Sync, rows: seq<Players.LinkRow>, k: nat)
    requires DistinctRows(rows)
    requires k < |rows| && rows[k].discordId in s.members
    ensures var d := rows[k].discordId;
      d in SyncRows(v, ranking, users, s, rows).members &&
      SyncRows(v, ranking, users, s, rows).members[d] ==
        Apply(s.members[d], RowOutcome(v, ranking, users, s.members[d], rows[k]).decision)
    decreases |rows|
  {
    var n := |rows| - 1;
    var init := rows[..n];
    var d := rows[k].discordId;
    SyncRowsKeepsMembers(v, ranking, users, s, init);
    assert DistinctRows(init) by {
      forall i, j | 0 <= i < j < |init| ensures init[i].discordId != init[j].discordId {
        assert init[i] == rows[i] && init[j] == rows[j];
      }
    }
    if k == n {
      forall j | 0 <= j < |init| ensures init[j].discordId != d {
        assert init[j] == rows[j];
      }
    } else {
      assert init[k] == rows[k];
      FinalRoles(v, ranking, users, s, init, k);
    }
  }

  /** A member whose decision has been applied gets Keep when classified again on the same data. */
  lemma ClassifyStable(v: Version, ranking: seq<int>, users: Users, roles: seq<int>, row: Players.LinkRow)
    requires SingleTier(roles)
    ensures var o := RowOutcome(v, ranking, users, roles, row);
      RowOutcome(v, ranking, users, Apply(roles, o.decision), row).decision == Keep
  {
    var rank := Ranking.CountryRank(ranking, row.osuId);
    var o := Classify(v, rank, CurrentTier(roles), row.osuId, users);
    ClassifyMeaning(v, rank, CurrentTier(roles), row.osuId, users);
    if o.decision.Swap? {
      var to := o.decision.to;
      ChangeRoleSetsTier(roles, to);
      assert CurrentTier(Apply(roles, o.decision)) == Some(to);
      var again := Classify(v, rank, Some(to), row.osuId, users);
      if rank == Ranking.NotRanked {
        match users(row.osuId)
        case NotFound =>
          assert to == Restricted;
          assert again.decision == SentinelDecision(Restricted, BecameRestricted, Some(to));
        case Found(ranked) =>
          if !ranked {
            assert to == Inactive;
          } else {
            assert to == TierForRank(rank).value;
            assert again.decision == RankedDecision(v, to, Some(to));
          }
      }
    }
  }

  /** Re-running after a run, on the same data, changes no role and sends no message. */
  lemma {:induction false} QuietPrefix(v: Version, ranking: seq<int>, users: Users, m0: Members, rows: seq<Players.LinkRow>, s: Sync, j: nat)
    requires AllSingle(m0) && DistinctRows(rows) && j <= |rows|
    requires s.members == SyncRows(v, ranking, users, Sync(m0, [], []), rows).members
    ensures SyncRows(v, ranking, users, s, rows[..j]).members == s.members
    ensures SyncRows(v, ranking, users, s, rows[..j]).notices == s.notices
  {
    if j > 0 {
      QuietPrefix(v, ranking, users, m0, rows, s, j - 1);
      assert rows[..j][..j - 1] == rows[..j - 1];
      var row := rows[j - 1];
      if row.discordId in s.members {
        SyncRowsKeepsMembers(v, ranking, users, Sync(m0, [], []), rows);
        FinalRoles(v, ranking, users, Sync(m0, [], []), rows, j - 1);
        ClassifyStable(v, ranking, users, m0[row.discordId], row);
      }
    }
  }

  /**
   * Idempotence: with every member holding at most one tier role and no change
   * upstream, a second run changes no role and emits no transition event.
   */
  lemma RefreshIdempotent(v: Version, board: Ranking.Leaderboard, users: Users, members: Members, table: Players.Table)
    requires AllSingle(members) && Players.DistinctIds(table)
    ensures var first := Refresh(v, board, users, members, table);
      first.Some? ==>
        var second := Refresh(v, board, users, first.value.members, table);
        second.Some? && second.value.members == first.value.members && second.value.notices == []
  {
    var c := Ranking.CrawlPages(board, Ranking.PageCount);
    if c.Some? {
      var rows := Players.LinkedRows(table);
      Players.LinkedRowsDistinct(table);
      var first := SyncRows(v, c.value.ids, users, Sync(members, [], []), rows);
      QuietPrefix(v, c.value.ids, users, members, rows, Sync(first.members, [], []), |rows|);
      assert rows[..|rows|] == rows;
    }
  }

  /** The bot.py version, with no reference check, marks every unlinked-tier member restricted during an outage. */
  lemma OriginalRestrictsDuringOutage(osuId: int, current: Option<Tier>)
    requires current != Some(Restricted)
    ensures Classify(Original, Ranking.NotRanked, current, osuId, (x: int) => NotFound).decision == Swap(Restricted, BecameRestricted)
    ensures Classify(Current, Ranking.NotRanked, current, osuId, (x: int) => NotFound).decision == Keep
  {
  }

  /** In bot.py a restricted member who is ranked again is announced as promoted, in the cog as unrestricted. */
  lemma ReturnFromRestriction(rank: int, osuId: int, users: Users)
    requires 1 <= rank < Ranking.NotRanked
    ensures Classify(Original, rank, Some(Restricted), osuId, users).decision == Swap(TierForRank(rank).value, Promoted)
    ensures Classify(Current, rank, Some(Restricted), osuId, users).decision == Swap(TierForRank(rank).value, Unrestricted)
  {
    ValueIsDeclarationIndex(TierForRank(rank).value);
  }

  /** The lookup of a run in which every account is found and ranked. */
  function EveryoneRanked(osuId: int): User {
    Found(true)
  }

  /** Guild members A, B and C of the scenario below, by their Discord ids 11, 12 and 13. */
  const ScenarioStart: Sync := Sync(map[11 := [], 12 := [], 13 := [RoleId(LVinf)]], [], [])

  /** Their rows: A and B are linked to the ranked accounts 100 and 200, C to the unlisted 300. */
  const ScenarioRows: seq<Players.LinkRow> := [Players.LinkRow(11, 100), Players.LinkRow(12, 200), Players.LinkRow(13, 300)]

  const AfterA: Sync := Sync(map[11 := [RoleId(LV1)], 12 := [], 13 := [RoleId(LVinf)]], [Notice(11, NoPreviousRole, LV1)], [])

  const AfterB: Sync := Sync(map[11 := [RoleId(LV1)], 12 := [RoleId(LV5)], 13 := [RoleId(LVinf)]],
                             [Notice(11, NoPreviousRole, LV1), Notice(12, NoPreviousRole, LV5)], [])

  /** A, who holds no tier role and is first in the snapshot, gets LV1 as no_previous_role. */
  lemma ScenarioRowA()
    ensures SyncRow(Current, [100, 200], EveryoneRanked, ScenarioStart, ScenarioRows[0]) == AfterA
  {
    assert Ranking.CountryRank([100, 200], 100) == 1;
    assert TierRoles([]) == [];
    assert TierForRank(1) == Some(LV1);
    assert Classify(Current, 1, None, 100, EveryoneRanked) == Outcome([], Swap(LV1, NoPreviousRole));
    assert Apply([], Swap(LV1, NoPreviousRole)) == [RoleId(LV1)];
  }

  /** B, second in the snapshot, gets LV5 as no_previous_role. */
  lemma ScenarioRowB()
    ensures SyncRow(Current, [100, 200], EveryoneRanked, AfterA, ScenarioRows[1]) == AfterB
  {
    assert Ranking.CountryRank([100, 200], 200) == 2;
    assert TierRoles([]) == [];
    assert TierForRank(2) == Some(LV5);
    assert Classify(Current, 2, None, 200, EveryoneRanked) == Outcome([], Swap(LV5, NoPreviousRole));
    assert Apply([], Swap(LV5, NoPreviousRole)) == [RoleId(LV5)];
  }

  /** C is not in the snapshot, is looked up, found ranked, resolves to LVinf and is left alone. */
  lemma ScenarioRowC()
    ensures SyncRow(Current, [100, 200], EveryoneRanked, AfterB, ScenarioRows[2]) == AfterB.(lookups := [300])
  {
    assert Ranking.CountryRank([100, 200], 300) == Ranking.NotRanked;
    assert TierOfRole(RoleId(LVinf)) == Some(LVinf) by { RevRolesInvertsRoles(LVinf, RoleId(LVinf)); }
    assert TierRoles([RoleId(LVinf)]) == [LVinf];
    assert TierForRank(Ranking.NotRanked) == Some(LVinf);
    assert Classify(Current, Ranking.NotRanked, Some(LVinf), 300, EveryoneRanked) == Outcome([300], Keep);
    var row := ScenarioRows[2];
    assert row == Players.LinkRow(13, 300);
    assert AfterB.members[13] == [RoleId(LVinf)];
    assert RowOutcome(Current, [100, 200], EveryoneRanked, AfterB.members[13], row) == Outcome([300], Keep);
  }

  /**
   * The snapshot [100, 200] with rows A, B, C: A and B get LV1 and LV5 as
   * no_previous_role; C is looked up and keeps LVinf, with no event.
   */
  lemma SnapshotScenario()
    ensures SyncRows(Current, [100, 200], EveryoneRanked, ScenarioStart, ScenarioRows) == AfterB.(lookups := [300])
  {
    var rows := ScenarioRows;
    assert rows[..2][..1] == [rows[0]] && rows[..2] == rows[..|rows| - 1] && [rows[0]][..0] == [];
    ScenarioRowA();
    ScenarioRowB();
    ScenarioRowC();
    assert SyncRows(Current, [100, 200], EveryoneRanked, ScenarioStart, rows[..1]) == AfterA;
    assert SyncRows(Current, [100, 200], EveryoneRanked, ScenarioStart, rows[..2]) == AfterB;
  }
}
