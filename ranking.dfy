/**
 * The ranking snapshot each role refresh builds: twenty requests to the country
 * performance leaderboard, each request's returned cursor feeding the next,
 * the pages' entries concatenated in order. A member's country rank is the
 * 1-based position of their osu! id in that list, or the sentinel 99999.
 */
module Ranking {
  import opened Wrappers

  /** One leaderboard response: its `cursor.page` (None when the cursor is null) and its user ids. */
  datatype Page = Page(cursor: Option<int>, ids: seq<int>)

  /** The upstream leaderboard: the page returned for a request cursor (None asks for the first page). */
  type Leaderboard = Option<int> -> Page

  /** The number of leaderboard requests per refresh. */
  const PageCount: nat := 20

  /** The rank given to an id that the snapshot does not contain. */
  const NotRanked: int := 99999

  /** The cursor and the ids collected after some number of requests. */
  datatype Crawl = Crawl(cursor: Option<int>, ids: seq<int>)

  /**
   * The state after n requests, or None once a response carried a null cursor:
   * reading `response["cursor"]["page"]` on it raises, which ends the whole refresh.
   */
  function CrawlPages(board: Leaderboard, n: nat): Option<Crawl> {
    if n == 0 then Some(Crawl(None, []))
    else match CrawlPages(board, n - 1)
      case None => None
      case Some(c) =>
        var page := board(c.cursor);
        if page.cursor.None? then None else Some(Crawl(page.cursor, c.ids + page.ids))
  }

  /** The loop of refresh_roles that fills `ranking_id_list`. */
  method BuildRanking(board: Leaderboard) returns (ranking: Option<seq<int>>)
    ensures CrawlPages(board, PageCount).None? ==> ranking.None?
    ensures CrawlPages(board, PageCount).Some? ==> ranking == Some(CrawlPages(board, PageCount).value.ids)
  {
    var cursor: Option<int> := None;
    var ids: seq<int> := [];
    for i := 0 to PageCount
      invariant CrawlPages(board, i) == Some(Crawl(cursor, ids))
    {
      var response := board(cursor);
      if response.cursor.None? {
        NullCursorEndsCrawl(board, i + 1, PageCount);
        return None;
      }
      cursor := response.cursor;
      ids := ids + response.ids;
    }
    ranking := Some(ids);
  }

  /** A crawl that has failed stays failed. */
  lemma {:induction false} NullCursorEndsCrawl(board: Leaderboard, k: nat, n: nat)
    requires k <= n && CrawlPages(board, k).None?
    ensures CrawlPages(board, n).None?
    decreases n - k
  {
    if k < n {
      NullCursorEndsCrawl(board, k + 1, n);
    }
  }

  /** The cursor sent with request i (0-based) when every earlier response carried one. */
  function CursorBefore(board: Leaderboard, i: nat): Option<int> {
    if i == 0 then None else board(CursorBefore(board, i - 1)).cursor
  }

  /** The ids of requests 0..n-1 concatenated, each request sent with the cursor of the one before. */
  function PagesIds(board: Leaderboard, n: nat): seq<int> {
    if n == 0 then [] else PagesIds(board, n - 1) + board(CursorBefore(board, n - 1)).ids
  }

  /**
   * A successful crawl is exactly the concatenation of the pages in request order,
   * each request sent with the previous response's cursor, and no response had a null cursor.
   */
  lemma {:induction false} CrawlIsConcatenation(board: Leaderboard, n: nat)
    ensures CrawlPages(board, n).Some? <==>
      forall i :: 0 <= i < n ==> board(CursorBefore(board, i)).cursor.Some?
    ensures CrawlPages(board, n).Some? ==>
      CrawlPages(board, n).value == Crawl(CursorBefore(board, n), PagesIds(board, n))
  {
    if n > 0 {
      CrawlIsConcatenation(board, n - 1);
    }
  }

  /** With at most 50 entries per page, twenty pages give at most 1000 entries. */
  lemma {:induction false} CrawlLength(board: Leaderboard, n: nat)
    requires forall c :: |board(c).ids| <= 50
    requires CrawlPages(board, n).Some?
    ensures |CrawlPages(board, n).value.ids| <= 50 * n
  {
    if n > 0 {
      CrawlLength(board, n - 1);
    }
  }

  /** The first position of x in s (0-based); list.index. */
  function IndexOf<T(==)>(s: seq<T>, x: T): (k: nat)
    requires x in s
    ensures k < |s| && s[k] == x && x !in s[..k]
  {
    if s[0] == x then 0
    else
      var k := IndexOf(s[1..], x);
      assert s[1..][..k] == s[1..k + 1];
      k + 1
  }

  /** `ranking_id_list.index(osu_id) + 1`, or 99999 when the id is not in the list. */
  function CountryRank(ranking: seq<int>, osuId: int): (rank: int)
    ensures rank >= 1
    ensures osuId in ranking ==>
      rank <= |ranking| && ranking[rank - 1] == osuId && osuId !in ranking[..rank - 1]
    ensures osuId !in ranking ==> rank == NotRanked
  {
    if osuId in ranking then IndexOf(ranking, osuId) + 1 else NotRanked
  }

  /**
   * The sentinel 99999 means "absent" whenever the snapshot is shorter than 99999
   * entries, which twenty pages of at most 50 entries always are.
   */
  lemma SentinelMeansAbsent(ranking: seq<int>, osuId: int)
    requires |ranking| < NotRanked
    ensures CountryRank(ranking, osuId) == NotRanked <==> osuId !in ranking
  {
  }

  /** A member's rank in the built snapshot identifies their leaderboard entry. */
  lemma RankInSnapshot(board: Leaderboard, osuId: int)
    requires forall c :: |board(c).ids| <= 50
    requires CrawlPages(board, PageCount).Some?
    ensures var ids := CrawlPages(board, PageCount).value.ids;
      CountryRank(ids, osuId) == NotRanked <==> osuId !in ids
  {
    CrawlLength(board, PageCount);
    SentinelMeansAbsent(CrawlPages(board, PageCount).value.ids, osuId);
  }
}
