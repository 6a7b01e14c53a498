/**
 * The new-top-play announcer (user_newbest_loop): for every linked guild member
 * with a rank tier, fetch their best plays, up to the tier's limit, and post
 * those set since the member was last checked, with their place in the list.
 */
module Newbest {
  import opened Wrappers
  import opened Tiers
  import Guild
  import Players

  /** A best play: its id and when it was set, in seconds. */
  datatype Score = Score(id: int, createdAt: int)

  /** The best plays the API returns for (osu! id, limit), best first. */
  type BestScores = (int, int) -> seq<Score>

  /** A play to announce and its 1-based place in the member's best list. */
  datatype Ranked = Ranked(score: Score, rank: nat)

  /** A NULL last_checked means "an hour ago". */
  const DefaultLookback: int := 3600

  /** The plays set after `lastChecked`, each with its place in the list. */
  function Fresh(scores: seq<Score>, lastChecked: int): (r: seq<Ranked>)
    ensures |r| <= |scores|
    ensures forall k :: 0 <= k < |r| ==>
      1 <= r[k].rank <= |scores| && scores[r[k].rank - 1] == r[k].score && r[k].score.createdAt > lastChecked
    ensures forall j, k :: 0 <= j < k < |r| ==> r[j].rank < r[k].rank
    decreases |scores|
  {
    if scores == [] then []
    else
      var n := |scores| - 1;
      var init := Fresh(scores[..n], lastChecked);
      assert forall k :: 0 <= k < |init| ==> scores[..n][init[k].rank - 1] == scores[init[k].rank - 1];
      if scores[n].createdAt > lastChecked then init + [Ranked(scores[n], n + 1)] else init
  }

  /** Every play set after `lastChecked` is announced, at its place in the list. */
  lemma {:induction false} FreshComplete(scores: seq<Score>, lastChecked: int, i: nat)
    requires i < |scores| && scores[i].createdAt > lastChecked
    ensures Ranked(scores[i], i + 1) in Fresh(scores, lastChecked)
    decreases |scores|
  {
    var n := |scores| - 1;
    if i < n {
      assert scores[..n][i] == scores[i];
      FreshComplete(scores[..n], lastChecked, i);
    }
  }

  /** get_user_newbest: the plays to post, how often the profile was fetched, and the ids logged. */
  method GetUserNewbest(best: BestScores, osuId: int, limit: int, lastChecked: int)
    returns (posts: seq<Ranked>, profileFetches: nat, scoreIds: seq<int>)
    ensures posts == Fresh(best(osuId, limit), lastChecked)
    ensures profileFetches == if posts == [] then 0 else 1
    ensures |scoreIds| == |posts| && forall k :: 0 <= k < |posts| ==> scoreIds[k] == posts[k].score.id
  {
    var userScores := best(osuId, limit);
    var fetched := false;
    posts, scoreIds := [], [];
    for index := 0 to |userScores|
      invariant posts == Fresh(userScores[..index], lastChecked)
      invariant fetched <==> posts != []
      invariant |scoreIds| == |posts| && forall k :: 0 <= k < |posts| ==> scoreIds[k] == posts[k].score.id
    {
      assert userScores[..index + 1][..index] == userScores[..index];
      var score := userScores[index];
      if score.createdAt > lastChecked {
        if !fetched {
          fetched := true;
        }
        posts := posts + [Ranked(score, index + 1)];
        scoreIds := scoreIds + [score.id];
      }
    }
    assert userScores[..|userScores|] == userScores;
    profileFetches := if fetched then 1 else 0;
  }

  /** The tier of a member the loop processes: in the guild, with a tier that is not a sentinel. */
  function Eligible(members: Guild.Members, discordId: int): (r: Option<Tier>)
    ensures r.Some? <==> (discordId in members && Guild.CurrentTier(members[discordId]).Some? &&
      Value(Guild.CurrentTier(members[discordId]).value) <= 9)
    ensures r.Some? ==> r == Guild.CurrentTier(members[discordId]) && r.value.IsRankTier()
  {
    if discordId !in members then None
    else match Guild.CurrentTier(members[discordId])
      case None => None
      case Some(t) =>
        ValueIsDeclarationIndex(t);
        if Value(t) > 9 then None else Some(t)
  }

  /** The row's last_checked, or an hour before now. */
  function LastChecked(row: Players.Player, now: int): int {
    row.lastChecked.GetOr(now - DefaultLookback)
  }

  /** An announcement: whose play, under which limit, and its place. */
  datatype Post = Post(discordId: int, osuId: int, limit: int, score: Score, rank: nat)

  /** The table, the posts so far and the members processed so far. */
  datatype Pass = Pass(table: Players.Table, posts: seq<Post>, processed: seq<int>)

  function Tag(row: Players.Player, limit: int, rs: seq<Ranked>): (ps: seq<Post>)
    requires row.osuId.Some?
    ensures |ps| == |rs| && forall k :: 0 <= k < |rs| ==>
      ps[k] == Post(row.discordId, row.osuId.value, limit, rs[k].score, rs[k].rank)
  {
    seq(|rs|, k requires 0 <= k < |rs| => Post(row.discordId, row.osuId.value, limit, rs[k].score, rs[k].rank))
  }

  /** One row of the loop. */
  function Visit(members: Guild.Members, best: BestScores, now: int, s: Pass, row: Players.Player): Pass
    requires row.osuId.Some?
  {
    match Eligible(members, row.discordId)
    case None => s
    case Some(t) =>
      var limit := NewbestLimit(t);
      var rs := Fresh(best(row.osuId.value, limit), LastChecked(row, now));
      Pass(Players.SetLastChecked(s.table, row.discordId, now), s.posts + Tag(row, limit, rs), s.processed + [row.discordId])
  }

  function VisitAll(members: Guild.Members, best: BestScores, now: int, s: Pass, rows: seq<Players.Player>): Pass
    requires forall k :: 0 <= k < |rows| ==> rows[k].osuId.Some?
    decreases |rows|
  {
    if rows == [] then s
    else Visit(members, best, now, VisitAll(members, best, now, s, rows[..|rows| - 1]), rows[|rows| - 1])
  }

  lemma LinkedPlayersLinked(t: Players.Table)
    ensures forall k :: 0 <= k < |Players.LinkedPlayers(t)| ==> Players.LinkedPlayers(t)[k].osuId.Some?
  {
    var rows := Players.LinkedPlayers(t);
    forall k | 0 <= k < |rows| ensures rows[k].osuId.Some? {
      assert rows[k] in rows;
    }
  }

  /** A run over the linked rows, the clock reading `now`. */
  function Newbest(members: Guild.Members, best: BestScores, now: int, table: Players.Table): Pass {
    LinkedPlayersLinked(table);
    VisitAll(members, best, now, Pass(table, [], []), Players.LinkedPlayers(table))
  }

  /** user_newbest_loop. */
  method UserNewbestLoop(members: Guild.Members, best: BestScores, now: int, table: Players.Table)
    returns (r: Pass)
    ensures r == Newbest(members, best, now, table)
  {
    LinkedPlayersLinked(table);
    var rows := Players.LinkedPlayers(table);
    var t := table;
    var posts: seq<Post> := [];
    var processed: seq<int> := [];
    for i := 0 to |rows|
      invariant VisitAll(members, best, now, Pass(table, [], []), rows[..i]) == Pass(t, posts, processed)
    {
      var row := rows[i];
      assert rows[..i + 1][..i] == rows[..i];
      var tier := Eligible(members, row.discordId);
      if tier.None? {
        continue;
      }
      var lastChecked := LastChecked(row, now);
      var limit := NewbestLimit(tier.value);
      var found, _, _ := GetUserNewbest(best, row.osuId.value, limit, lastChecked);
      posts := posts + Tag(row, limit, found);
      t := Players.SetLastChecked(t, row.discordId, now);
      processed := processed + [row.discordId];
    }
    assert rows[..|rows|] == rows;
    return Pass(t, posts, processed);
  }

  /**
   * Every announcement is for a guild member with a rank tier, under that tier's
   * limit, of a play set after the member was last checked.
   */
  lemma {:induction false} PostsOnlyForEligible(members: Guild.Members, best: BestScores, now: int, s: Pass, rows: seq<Players.Player>)
    requires forall k :: 0 <= k < |rows| ==> rows[k].osuId.Some?
    ensures forall p :: p in VisitAll(members, best, now, s, rows).posts ==> (p in s.posts ||
      (Eligible(members, p.discordId).Some? && p.limit == NewbestLimit(Eligible(members, p.discordId).value) &&
       exists k :: 0 <= k < |rows| && rows[k].discordId == p.discordId && rows[k].osuId == Some(p.osuId) &&
         p.score.createdAt > LastChecked(rows[k], now) && 1 <= p.rank <= |best(p.osuId, p.limit)| &&
         best(p.osuId, p.limit)[p.rank - 1] == p.score))
    decreases |rows|
  {
    if rows != [] {
      var n := |rows| - 1;
      PostsOnlyForEligible(members, best, now, s, rows[..n]);
      forall k | 0 <= k < n ensures rows[..n][k] == rows[k] { }
    }
  }

  /**
   * With an API that honours the limit, an announced place is at most the
   * tier's limit, itself at most 100.
   */
  lemma RankWithinLimit(members: Guild.Members, best: BestScores, now: int, table: Players.Table)
    requires forall o, l :: |best(o, l)| <= l
    ensures forall p :: p in Newbest(members, best, now, table).posts ==> 1 <= p.rank <= p.limit <= 100
  {
    LinkedPlayersLinked(table);
    var rows := Players.LinkedPlayers(table);
    PostsOnlyForEligible(members, best, now, Pass(table, [], []), rows);
    forall p | p in Newbest(members, best, now, table).posts ensures 1 <= p.rank <= p.limit <= 100 {
      assert |best(p.osuId, p.limit)| <= p.limit;
    }
  }

  /** What one row does to the table and to the processed list. */
  lemma VisitEffect(members: Guild.Members, best: BestScores, now: int, s: Pass, row: Players.Player)
    requires row.osuId.Some?
    ensures var r := Visit(members, best, now, s, row);
      var eligible := Eligible(members, row.discordId).Some?;
      r.processed == (if eligible then s.processed + [row.discordId] else s.processed) &&
      r.table == (if eligible then Players.SetLastChecked(s.table, row.discordId, now) else s.table)
  {
  }

  /** `after` extends `base` by exactly the eligible members among `rows`. */
  ghost predicate ProcessedExactly(members: Guild.Members, base: seq<int>, after: seq<int>, rows: seq<Players.Player>) {
    |base| <= |after| && after[..|base|] == base &&
    forall d :: d in after[|base|..] <==>
      (Eligible(members, d).Some? && exists k :: 0 <= k < |rows| && rows[k].discordId == d)
  }

  lemma ProcessedStep(members: Guild.Members, base: seq<int>, mid: seq<int>, after: seq<int>, rows: seq<Players.Player>, row: Players.Player)
    requires ProcessedExactly(members, base, mid, rows)
    requires after == if Eligible(members, row.discordId).Some? then mid + [row.discordId] else mid
    ensures ProcessedExactly(members, base, after, rows + [row])
  {
    var rs := rows + [row];
    var tail := after[|base|..];
    if Eligible(members, row.discordId).Some? {
      assert tail == mid[|base|..] + [row.discordId];
    } else {
      assert tail == mid[|base|..];
    }
    forall d | d in tail ensures exists k :: 0 <= k < |rs| && rs[k].discordId == d {
      if d in mid[|base|..] {
        var k :| 0 <= k < |rows| && rows[k].discordId == d;
        assert rs[k] == rows[k];
      } else {
        assert rs[|rows|].discordId == d;
      }
    }
    forall d, k | 0 <= k < |rs| && rs[k].discordId == d && Eligible(members, d).Some? ensures d in tail {
      if k < |rows| {
        assert rs[k] == rows[k];
      }
    }
  }

  /** A member is processed exactly when they have a row and a rank tier. */
  lemma {:induction false} ProcessedIff(members: Guild.Members, best: BestScores, now: int, s: Pass, rows: seq<Players.Player>)
    requires forall k :: 0 <= k < |rows| ==> rows[k].osuId.Some?
    ensures ProcessedExactly(members, s.processed, VisitAll(members, best, now, s, rows).processed, rows)
    decreases |rows|
  {
    if rows != [] {
      var n := |rows| - 1;
      var prev := VisitAll(members, best, now, s, rows[..n]);
      ProcessedIff(members, best, now, s, rows[..n]);
      VisitEffect(members, best, now, prev, rows[n]);
      assert rows[..n] + [rows[n]] == rows;
      ProcessedStep(members, s.processed, prev.processed, VisitAll(members, best, now, s, rows).processed, rows[..n], rows[n]);
    } else {
      assert s.processed[|s.processed|..] == [];
    }
  }

  /**
   * Processed members' last_checked becomes now; every other row is untouched,
   * and the rows and their order stay as they were.
   */
  lemma {:induction false} LastCheckedAdvances(members: Guild.Members, best: BestScores, now: int, s: Pass, rows: seq<Players.Player>)
    requires forall k :: 0 <= k < |rows| ==> rows[k].osuId.Some?
    ensures var r := VisitAll(members, best, now, s, rows);
      |s.processed| <= |r.processed| && |r.table| == |s.table| &&
      forall i :: 0 <= i < |s.table| ==>
        r.table[i] == if s.table[i].discordId in r.processed[|s.processed|..] then s.table[i].(lastChecked := Some(now)) else s.table[i]
    decreases |rows|
  {
    ProcessedIff(members, best, now, s, rows);
    if rows != [] {
      var n := |rows| - 1;
      var prev := VisitAll(members, best, now, s, rows[..n]);
      LastCheckedAdvances(members, best, now, s, rows[..n]);
      ProcessedIff(members, best, now, s, rows[..n]);
      VisitEffect(members, best, now, prev, rows[n]);
      var r := VisitAll(members, best, now, s, rows);
      if Eligible(members, rows[n].discordId).Some? {
        assert r.processed[|s.processed|..] == prev.processed[|s.processed|..] + [rows[n].discordId];
      } else {
        assert r.processed == prev.processed;
      }
    }
  }
}
