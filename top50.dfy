/**
 * The global top-50 announcer (global_top50_loop): for every linked guild member
 * with a rank tier, look at their recent plays set since they were last checked,
 * and post every play that is on its beatmap's global top-50 list, with its
 * place there. Unlike the new-top-play announcer, one member's failure is
 * logged and the loop goes on with the next member.
 */
module Top50 {
  import opened Wrappers
  import Tiers
  import Guild
  import Players
  import Ranking
  import Newbest

  datatype Beatmap = Beatmap(bpm: Option<int>)

  /** A recent play, as much of it as the announcer looks at. */
  datatype Score = Score(
    id: Option<int>, beatmapId: int, endedAt: int, rulesetId: int,
    beatmap: Option<Beatmap>, hasBeatmapset: bool,
    legacyTotalScore: Option<int>, totalScore: int)

  datatype Statistics = Statistics(pp: Option<real>)

  /** The player's profile; only its statistics are checked. */
  datatype Profile = Profile(statistics: Option<Statistics>)

  /**
   * What the outside world answers: recent plays of (osu! id, limit), the ids of
   * a beatmap's global top 50, profiles, whether a beatmap's .osu file can be
   * opened, and whether the bot-spam channel exists.
   */
  datatype Api = Api(
    recent: (int, int) -> seq<Score>,
    beatmapTop: int -> seq<Option<int>>,
    profile: int -> Profile,
    mapFile: int -> bool,
    channelExists: bool)

  /** user_scores(type=recent, limit=20). */
  const RecentLimit: int := 20

  /** The errors post_global_top50 raises, in the order it checks them. */
  datatype PostError =
    | NoChannel
    | NotStandard(rulesetId: int)
    | NoBeatmap
    | NoBeatmapset
    | NoStatistics
    | NoMapFile
    | NoBpm
    | NoPp

  /** The checks of post_global_top50: None when the post goes out, else the first failing check. */
  function CheckPost(api: Api, s: Score, user: Profile): (r: Option<PostError>) {
    if !api.channelExists then Some(NoChannel)
    else if s.rulesetId != 0 then Some(NotStandard(s.rulesetId))
    else if s.beatmap.None? then Some(NoBeatmap)
    else if !s.hasBeatmapset then Some(NoBeatmapset)
    else if user.statistics.None? then Some(NoStatistics)
    else if !api.mapFile(s.beatmapId) then Some(NoMapFile)
    else if s.beatmap.value.bpm.None? then Some(NoBpm)
    else if user.statistics.value.pp.None? then Some(NoPp)
    else None
  }

  /**
   * A post goes out exactly when the channel exists, the play is osu! standard,
   * its beatmap, beatmapset, beatmap file and BPM are there and the profile has
   * statistics with pp; a missing channel is reported first, then the ruleset.
   */
  lemma CheckPostMeaning(api: Api, s: Score, user: Profile)
    ensures CheckPost(api, s, user).None? <==> (api.channelExists && s.rulesetId == 0 && s.beatmap.Some? && s.hasBeatmapset &&
      user.statistics.Some? && api.mapFile(s.beatmapId) && s.beatmap.value.bpm.Some? && user.statistics.value.pp.Some?)
    ensures !api.channelExists ==> CheckPost(api, s, user) == Some(NoChannel)
    ensures api.channelExists && s.rulesetId != 0 ==> CheckPost(api, s, user) == Some(NotStandard(s.rulesetId))
  {
  }

  /** The total shown in the post: the legacy score when present and non-zero, else the total score. */
  function DisplayedTotal(s: Score): (r: int)
    ensures s.legacyTotalScore.Some? && s.legacyTotalScore.value != 0 ==> r == s.legacyTotalScore.value
    ensures Some(r) == s.legacyTotalScore || r == s.totalScore
    ensures r == 0 ==> s.totalScore == 0
  {
    match s.legacyTotalScore
    case Some(v) => if v != 0 then v else s.totalScore
    case None => s.totalScore
  }

  /** A play on its beatmap's top-50 list, and its 1-based place there. */
  datatype Found = Found(score: Score, globalRank: nat)

  /** What one member's check did: the posts made, the error that stopped it, and the beatmaps looked up. */
  datatype Attempt = Attempt(posted: seq<Found>, failure: Option<PostError>, lookups: seq<int>)

  /** One recent play. */
  function Check(api: Api, user: Profile, lastChecked: int, a: Attempt, s: Score): Attempt {
    if a.failure.Some? || s.endedAt <= lastChecked then a
    else
      var ids := api.beatmapTop(s.beatmapId);
      var b := a.(lookups := a.lookups + [s.beatmapId]);
      if s.id !in ids then b
      else match CheckPost(api, s, user)
        case None => b.(posted := a.posted + [Found(s, Ranking.IndexOf(ids, s.id) + 1)])
        case Some(e) => b.(failure := Some(e))
  }

  /** The plays in `scores`, in order, until a post fails. */
  function CheckAll(api: Api, user: Profile, lastChecked: int, scores: seq<Score>): (a: Attempt)
    decreases |scores|
  {
    if scores == [] then Attempt([], None, [])
    else Check(api, user, lastChecked, CheckAll(api, user, lastChecked, scores[..|scores| - 1]), scores[|scores| - 1])
  }

  /**
   * Every post is of a play set after `lastChecked`, on its beatmap's list at
   * its first place, whose checks passed; a failure is the first failing check
   * of such a play; only the beatmaps of plays set after `lastChecked` are
   * looked up, one per play at most.
   */
  lemma {:induction false} CheckAllSound(api: Api, user: Profile, lastChecked: int, scores: seq<Score>)
    ensures var a := CheckAll(api, user, lastChecked, scores);
      |a.lookups| <= |scores| && |a.posted| <= |a.lookups|
    ensures forall f :: f in CheckAll(api, user, lastChecked, scores).posted ==>
      (f.score in scores && f.score.endedAt > lastChecked && CheckPost(api, f.score, user).None? &&
       1 <= f.globalRank <= |api.beatmapTop(f.score.beatmapId)| &&
       api.beatmapTop(f.score.beatmapId)[f.globalRank - 1] == f.score.id &&
       f.score.id !in api.beatmapTop(f.score.beatmapId)[..f.globalRank - 1])
    ensures CheckAll(api, user, lastChecked, scores).failure.Some? ==>
      (exists s :: s in scores && s.endedAt > lastChecked &&
         s.id in api.beatmapTop(s.beatmapId) && CheckPost(api, s, user) == CheckAll(api, user, lastChecked, scores).failure)
    ensures forall b :: b in CheckAll(api, user, lastChecked, scores).lookups ==>
      exists s :: s in scores && s.endedAt > lastChecked && s.beatmapId == b
    decreases |scores|
  {
    if scores != [] {
      var init := scores[..|scores| - 1];
      CheckAllSound(api, user, lastChecked, init);
      assert forall s :: s in init ==> s in scores;
    }
  }

  /** Once a post has failed, the remaining plays change nothing. */
  lemma {:induction false} FailureSticks(api: Api, user: Profile, lastChecked: int, scores: seq<Score>, i: nat)
    requires i <= |scores| && CheckAll(api, user, lastChecked, scores[..i]).failure.Some?
    ensures CheckAll(api, user, lastChecked, scores) == CheckAll(api, user, lastChecked, scores[..i])
    decreases |scores|
  {
    if i < |scores| {
      var n := |scores| - 1;
      assert scores[..n][..i] == scores[..i];
      FailureSticks(api, user, lastChecked, scores[..n], i);
    } else {
      assert scores[..i] == scores;
    }
  }

  /** With no failure, every play set after `lastChecked` that is on its beatmap's list is posted, at its first place. */
  lemma {:induction false} CheckAllComplete(api: Api, user: Profile, lastChecked: int, scores: seq<Score>, i: nat)
    requires i < |scores| && CheckAll(api, user, lastChecked, scores).failure.None?
    requires scores[i].endedAt > lastChecked && scores[i].id in api.beatmapTop(scores[i].beatmapId)
    ensures Found(scores[i], Ranking.IndexOf(api.beatmapTop(scores[i].beatmapId), scores[i].id) + 1)
      in CheckAll(api, user, lastChecked, scores).posted
    decreases |scores|
  {
    var n := |scores| - 1;
    var a := CheckAll(api, user, lastChecked, scores[..n]);
    assert CheckAll(api, user, lastChecked, scores) == Check(api, user, lastChecked, a, scores[n]);
    if i < n {
      assert scores[..n][i] == scores[i];
      CheckAllComplete(api, user, lastChecked, scores[..n], i);
    }
  }

  /** A post's place is within the list, so at most 50 when the API honours the limit. */
  lemma GlobalRankAtMostFifty(api: Api, user: Profile, lastChecked: int, scores: seq<Score>)
    requires forall b :: |api.beatmapTop(b)| <= 50
    ensures forall f :: f in CheckAll(api, user, lastChecked, scores).posted ==> 1 <= f.globalRank <= 50
  {
    CheckAllSound(api, user, lastChecked, scores);
    forall f | f in CheckAll(api, user, lastChecked, scores).posted ensures 1 <= f.globalRank <= 50 {
      assert |api.beatmapTop(f.score.beatmapId)| <= 50;
    }
  }

  /** One member's check: their recent plays against their own profile. */
  function Top50Of(api: Api, osuId: int, lastChecked: int): Attempt {
    CheckAll(api, api.profile(osuId), lastChecked, api.recent(osuId, RecentLimit))
  }

  /** The ids of the posted plays that have one, in order. */
  function KnownIds(fs: seq<Found>): (ids: seq<int>)
    ensures |ids| <= |fs|
    ensures forall x :: x in ids <==> exists f :: f in fs && f.score.id == Some(x)
  {
    if fs == [] then []
    else
      var init := fs[..|fs| - 1];
      var rest := KnownIds(init);
      assert forall f :: f in fs <==> f == fs[|fs| - 1] || f in init;
      match fs[|fs| - 1].score.id
      case Some(x) => rest + [x]
      case None => rest
  }

  /**
   * get_global_top50: the posts made, the error that stopped them, how often
   * the profile was fetched, and the ids logged.
   */
  method GetGlobalTop50(api: Api, osuId: int, lastChecked: int)
    returns (a: Attempt, profileFetches: nat, scoreIds: seq<int>)
    ensures a == Top50Of(api, osuId, lastChecked)
    ensures profileFetches == if a.posted == [] && a.failure.None? then 0 else 1
    ensures scoreIds == KnownIds(a.posted)
  {
    var userScores := api.recent(osuId, RecentLimit);
    var osuUser: Option<Profile> := None;
    a, profileFetches, scoreIds := Attempt([], None, []), 0, [];
    for i := 0 to |userScores|
      invariant a == CheckAll(api, api.profile(osuId), lastChecked, userScores[..i]) && a.failure.None?
      invariant osuUser.Some? <==> a.posted != []
      invariant osuUser.Some? ==> osuUser.value == api.profile(osuId)
      invariant profileFetches == if osuUser.Some? then 1 else 0
      invariant scoreIds == KnownIds(a.posted)
    {
      assert userScores[..i + 1][..i] == userScores[..i];
      var score := userScores[i];
      if score.endedAt > lastChecked {
        var top50ScoreIds := api.beatmapTop(score.beatmapId);
        a := a.(lookups := a.lookups + [score.beatmapId]);
        if score.id in top50ScoreIds {
          var globalRank := Ranking.IndexOf(top50ScoreIds, score.id) + 1;
          if osuUser.None? {
            osuUser := Some(api.profile(osuId));
            profileFetches := 1;
          }
          var err := CheckPost(api, score, osuUser.value);
          if err.Some? {
            a := a.(failure := err);
            FailureSticks(api, api.profile(osuId), lastChecked, userScores, i + 1);
            return;
          }
          assert (a.posted + [Found(score, globalRank)])[..|a.posted|] == a.posted;
          a := a.(posted := a.posted + [Found(score, globalRank)]);
          if score.id.Some? {
            scoreIds := scoreIds + [score.id.value];
          }
        }
      }
    }
    assert userScores[..|userScores|] == userScores;
  }

  /** An announcement: whose play, under which limit, and its global place. */
  datatype Post = Post(discordId: int, osuId: int, limit: int, found: Found)

  /** The table, the posts so far, and the members finished and failed so far. */
  datatype Pass = Pass(table: Players.Table, posts: seq<Post>, processed: seq<int>, failed: seq<int>)

  function Tag(row: Players.Player, limit: int, fs: seq<Found>): (ps: seq<Post>)
    requires row.osuId.Some?
    ensures |ps| == |fs| && forall k :: 0 <= k < |fs| ==> ps[k] == Post(row.discordId, row.osuId.value, limit, fs[k])
  {
    seq(|fs|, k requires 0 <= k < |fs| => Post(row.discordId, row.osuId.value, limit, fs[k]))
  }

  /** This row's check, as the loop runs it. */
  function RowAttempt(api: Api, now: int, row: Players.Player): Attempt
    requires row.osuId.Some?
  {
    Top50Of(api, row.osuId.value, Newbest.LastChecked(row, now))
  }

  /** What the loop does with a row: skip it, finish the member, or log their failure. */
  datatype Verdict = Skipped | Finished | Failed

  function VerdictOf(api: Api, members: Guild.Members, now: int, row: Players.Player): (v: Verdict)
    requires row.osuId.Some?
    ensures v != Skipped <==> Newbest.Eligible(members, row.discordId).Some?
    ensures v == Failed ==> RowAttempt(api, now, row).failure.Some?
    ensures v == Finished ==> RowAttempt(api, now, row).failure.None?
  {
    if Newbest.Eligible(members, row.discordId).None? then Skipped
    else if RowAttempt(api, now, row).failure.None? then Finished
    else Failed
  }

  /**
   * One row of the loop. The posts made before a failure stay posted; a failed
   * member is logged and keeps their last_checked.
   */
  function Visit(api: Api, members: Guild.Members, now: int, s: Pass, row: Players.Player): Pass
    requires row.osuId.Some?
  {
    var v := VerdictOf(api, members, now, row);
    if v == Skipped then s
    else
      var a := RowAttempt(api, now, row);
      var posts := s.posts + Tag(row, Tiers.NewbestLimit(Newbest.Eligible(members, row.discordId).value), a.posted);
      if v == Finished then
        Pass(Players.SetLastChecked(s.table, row.discordId, now), posts, s.processed + [row.discordId], s.failed)
      else
        Pass(s.table, posts, s.processed, s.failed + [row.discordId])
  }

  function VisitAll(api: Api, members: Guild.Members, now: int, s: Pass, rows: seq<Players.Player>): Pass
    requires forall k :: 0 <= k < |rows| ==> rows[k].osuId.Some?
    decreases |rows|
  {
    if rows == [] then s
    else Visit(api, members, now, VisitAll(api, members, now, s, rows[..|rows| - 1]), rows[|rows| - 1])
  }

  /** A run over the linked rows, the clock reading `now`. */
  function Top50Run(api: Api, members: Guild.Members, now: int, table: Players.Table): Pass {
    Newbest.LinkedPlayersLinked(table);
    VisitAll(api, members, now, Pass(table, [], [], []), Players.LinkedPlayers(table))
  }

  /** global_top50_loop. */
  method GlobalTop50Loop(api: Api, members: Guild.Members, now: int, table: Players.Table)
    returns (r: Pass)
    ensures r == Top50Run(api, members, now, table)
  {
    Newbest.LinkedPlayersLinked(table);
    var rows := Players.LinkedPlayers(table);
    r := Pass(table, [], [], []);
    for i := 0 to |rows|
      invariant VisitAll(api, members, now, Pass(table, [], [], []), rows[..i]) == r
    {
      var row := rows[i];
      assert rows[..i + 1][..i] == rows[..i];
      var tier := Newbest.Eligible(members, row.discordId);
      if tier.None? {
        continue;
      }
      assert VerdictOf(api, members, now, row) != Skipped;
      var limit := Tiers.NewbestLimit(tier.value);
      var a, _, _ := GetGlobalTop50(api, row.osuId.value, Newbest.LastChecked(row, now));
      var posts := r.posts + Tag(row, limit, a.posted);
      if a.failure.Some? {
        r := r.(posts := posts, failed := r.failed + [row.discordId]);
        continue;
      }
      r := Pass(Players.SetLastChecked(r.table, row.discordId, now), posts, r.processed + [row.discordId], r.failed);
    }
    assert rows[..|rows|] == rows;
  }

  /** The members a list gained over a run, and the rows that gave that verdict. */
  ghost predicate GainedExactly(before: seq<int>, after: seq<int>, api: Api, members: Guild.Members, now: int,
                          rows: seq<Players.Player>, v: Verdict)
    requires forall k :: 0 <= k < |rows| ==> rows[k].osuId.Some?
  {
    |before| <= |after| && after[..|before|] == before &&
    forall d :: d in after[|before|..] <==>
      exists k :: 0 <= k < |rows| && rows[k].discordId == d && VerdictOf(api, members, now, rows[k]) == v
  }

  /**
   * Per-member isolation: a member is finished exactly when they are eligible
   * and their own check succeeded, and logged as failed exactly when their own
   * check failed, whatever happened to the members before them.
   */
  lemma {:induction false} Isolation(api: Api, members: Guild.Members, now: int, s: Pass, rows: seq<Players.Player>)
    requires forall k :: 0 <= k < |rows| ==> rows[k].osuId.Some?
    ensures GainedExactly(s.processed, VisitAll(api, members, now, s, rows).processed, api, members, now, rows, Finished)
    ensures GainedExactly(s.failed, VisitAll(api, members, now, s, rows).failed, api, members, now, rows, Failed)
    decreases |rows|
  {
    if rows != [] {
      var n := |rows| - 1;
      var prev := VisitAll(api, members, now, s, rows[..n]);
      Isolation(api, members, now, s, rows[..n]);
      GainedStep(s.processed, prev.processed, api, members, now, rows, Finished);
      GainedStep(s.failed, prev.failed, api, members, now, rows, Failed);
    }
  }

  /** Extending a run by one row extends each list by that row's member exactly when the verdict matches. */
  lemma GainedStep(before: seq<int>, prev: seq<int>, api: Api, members: Guild.Members, now: int,
                   rows: seq<Players.Player>, v: Verdict)
    requires rows != [] && forall k :: 0 <= k < |rows| ==> rows[k].osuId.Some?
    requires GainedExactly(before, prev, api, members, now, rows[..|rows| - 1], v)
    ensures var last := rows[|rows| - 1];
      GainedExactly(before, if VerdictOf(api, members, now, last) == v then prev + [last.discordId] else prev,
                    api, members, now, rows, v)
  {
    var n := |rows| - 1;
    var last := rows[n];
    var after := if VerdictOf(api, members, now, last) == v then prev + [last.discordId] else prev;
    assert after[..|before|] == before;
    assert after[|before|..] == if VerdictOf(api, members, now, last) == v then prev[|before|..] + [last.discordId] else prev[|before|..];
    forall d | d in after[|before|..]
      ensures exists k :: 0 <= k < |rows| && rows[k].discordId == d && VerdictOf(api, members, now, rows[k]) == v
    {
      if d in prev[|before|..] {
        var k :| 0 <= k < n && rows[..n][k].discordId == d && VerdictOf(api, members, now, rows[..n][k]) == v;
        assert rows[..n][k] == rows[k];
      } else {
        assert rows[n].discordId == d;
      }
    }
    forall d, k | 0 <= k < |rows| && rows[k].discordId == d && VerdictOf(api, members, now, rows[k]) == v
      ensures d in after[|before|..]
    {
      if k < n {
        assert rows[..n][k] == rows[k];
      }
    }
  }

  /** Only finished members' last_checked moves to now; the rows and their order stay. */
  lemma {:induction false} FinishedAdvance(api: Api, members: Guild.Members, now: int, s: Pass, rows: seq<Players.Player>)
    requires forall k :: 0 <= k < |rows| ==> rows[k].osuId.Some?
    ensures var r := VisitAll(api, members, now, s, rows);
      |s.processed| <= |r.processed| && |r.table| == |s.table| &&
      forall i :: 0 <= i < |s.table| ==>
        r.table[i] == if s.table[i].discordId in r.processed[|s.processed|..] then s.table[i].(lastChecked := Some(now)) else s.table[i]
    decreases |rows|
  {
    Isolation(api, members, now, s, rows);
    if rows != [] {
      var n := |rows| - 1;
      var prev := VisitAll(api, members, now, s, rows[..n]);
      FinishedAdvance(api, members, now, s, rows[..n]);
      Isolation(api, members, now, s, rows[..n]);
      var r := VisitAll(api, members, now, s, rows);
      if VerdictOf(api, members, now, rows[n]) == Finished {
        assert r.processed[|s.processed|..] == prev.processed[|s.processed|..] + [rows[n].discordId];
      } else {
        assert r.processed == prev.processed;
      }
    }
  }

  /** With one row per member, nobody is both finished and failed. */
  lemma FailedNotFinished(api: Api, members: Guild.Members, now: int, s: Pass, rows: seq<Players.Player>, d: int)
    requires forall k :: 0 <= k < |rows| ==> rows[k].osuId.Some?
    requires Players.DistinctIds(rows)
    requires |s.failed| <= |VisitAll(api, members, now, s, rows).failed|
    requires d in VisitAll(api, members, now, s, rows).failed[|s.failed|..]
    ensures |s.processed| <= |VisitAll(api, members, now, s, rows).processed| &&
      d !in VisitAll(api, members, now, s, rows).processed[|s.processed|..]
  {
    Isolation(api, members, now, s, rows);
    var k :| 0 <= k < |rows| && rows[k].discordId == d && VerdictOf(api, members, now, rows[k]) == Failed;
  }

  /** With one row per member, a member whose check failed keeps their last_checked. */
  lemma FailedKeepsLastChecked(api: Api, members: Guild.Members, now: int, table: Players.Table, d: int)
    requires Players.DistinctIds(table)
    requires d in Top50Run(api, members, now, table).failed
    ensures |Top50Run(api, members, now, table).table| == |table|
    ensures forall i :: 0 <= i < |table| && table[i].discordId == d ==> Top50Run(api, members, now, table).table[i] == table[i]
  {
    Newbest.LinkedPlayersLinked(table);
    Players.LinkedPlayersDistinct(table);
    var rows := Players.LinkedPlayers(table);
    var s := Pass(table, [], [], []);
    var r := Top50Run(api, members, now, table);
    assert r.failed[0..] == r.failed && r.processed[0..] == r.processed;
    FailedNotFinished(api, members, now, s, rows, d);
    FinishedAdvance(api, members, now, s, rows);
  }
}
