/**
 * The `players` table: one row per known Discord member, with the linked osu!
 * account (NULL when unlinked) and the last time their scores were scanned.
 * Rows are kept in scan order, so that "the first row a query returns" is defined.
 */
module Players {
  import opened Wrappers

  datatype Player = Player(discordId: int, osuId: Option<int>, lastChecked: Option<int>)

  type Table = seq<Player>

  /** A linked row as `SELECT discord_id, osu_id FROM players WHERE osu_id IS NOT NULL` returns it. */
  datatype LinkRow = LinkRow(discordId: int, osuId: int)

  /** discord_id is the primary key. */
  predicate DistinctIds(t: Table) {
    forall i, j :: 0 <= i < j < |t| ==> t[i].discordId != t[j].discordId
  }

  /** No two rows hold the same non-null osu_id; the linker keeps this, the database does not. */
  predicate UniqueLinks(t: Table) {
    forall i, j :: 0 <= i < j < |t| && t[i].osuId.Some? ==> t[i].osuId != t[j].osuId
  }

  predicate Valid(t: Table) {
    DistinctIds(t) && UniqueLinks(t)
  }

  predicate HasRow(t: Table, discordId: int) {
    exists i :: 0 <= i < |t| && t[i].discordId == discordId
  }

  /** The Discord ids whose row holds the given osu! id. */
  function Holders(t: Table, osuId: int): set<int> {
    set i | 0 <= i < |t| && t[i].osuId == Some(osuId) :: t[i].discordId
  }

  /** `SELECT discord_id, osu_id FROM players WHERE osu_id IS NOT NULL`. */
  function LinkedRows(t: Table): (rows: seq<LinkRow>)
    ensures |rows| <= |t|
    ensures forall r :: r in rows <==> exists i :: 0 <= i < |t| && t[i].osuId == Some(r.osuId) && t[i].discordId == r.discordId
  {
    if t == [] then []
    else
      var rest := LinkedRows(t[1..]);
      assert forall i :: 1 <= i < |t| ==> t[1..][i - 1] == t[i];
      if t[0].osuId.Some? then [LinkRow(t[0].discordId, t[0].osuId.value)] + rest else rest
  }

  /** `SELECT * FROM players WHERE osu_id IS NOT NULL`, in table order. */
  function LinkedPlayers(t: Table): (rows: seq<Player>)
    ensures |rows| <= |t|
    ensures forall p :: p in rows <==> p in t && p.osuId.Some?
  {
    if t == [] then []
    else
      var rest := LinkedPlayers(t[1..]);
      assert forall p :: p in t <==> p == t[0] || p in t[1..];
      if t[0].osuId.Some? then [t[0]] + rest else rest
  }

  /** The osu! id of the first row for the member with a non-null osu_id, if any. */
  function LinkedOsu(t: Table, discordId: int): (r: Option<int>)
    ensures r.Some? ==> exists i :: 0 <= i < |t| && t[i].discordId == discordId && t[i].osuId == r
    ensures r.None? ==> forall i :: 0 <= i < |t| && t[i].discordId == discordId ==> t[i].osuId.None?
  {
    if t == [] then None
    else if t[0].discordId == discordId && t[0].osuId.Some? then t[0].osuId
    else
      var r := LinkedOsu(t[1..], discordId);
      assert forall i :: 1 <= i < |t| ==> t[1..][i - 1] == t[i];
      r
  }

  /** The Discord id of the first row holding the osu! id, if any (`result[0][0]`). */
  function FirstHolder(t: Table, osuId: int): (r: Option<int>)
    ensures r.Some? ==> r.value in Holders(t, osuId)
    ensures r.None? ==> Holders(t, osuId) == {}
  {
    if t == [] then None
    else if t[0].osuId == Some(osuId) then Some(t[0].discordId)
    else
      var r := FirstHolder(t[1..], osuId);
      assert forall i :: 1 <= i < |t| ==> t[1..][i - 1] == t[i];
      r
  }

  /** `UPDATE players SET osu_id = v WHERE discord_id = d`. */
  function SetOsu(t: Table, discordId: int, v: Option<int>): (r: Table)
    ensures |r| == |t|
    ensures forall i :: 0 <= i < |t| ==>
      r[i] == if t[i].discordId == discordId then t[i].(osuId := v) else t[i]
  {
    seq(|t|, i requires 0 <= i < |t| => if t[i].discordId == discordId then t[i].(osuId := v) else t[i])
  }

  /** `UPDATE players SET last_checked = v WHERE discord_id = d`. */
  function SetLastChecked(t: Table, discordId: int, v: int): (r: Table)
    ensures |r| == |t|
    ensures forall i :: 0 <= i < |t| ==>
      r[i] == if t[i].discordId == discordId then t[i].(lastChecked := Some(v)) else t[i]
  {
    seq(|t|, i requires 0 <= i < |t| => if t[i].discordId == discordId then t[i].(lastChecked := Some(v)) else t[i])
  }

  /** `INSERT INTO players (discord_id) VALUES (d)`: a new row with NULL osu_id and last_checked. */
  function Insert(t: Table, discordId: int): (r: Table)
    ensures r == t + [Player(discordId, None, None)]
  {
    t + [Player(discordId, None, None)]
  }

  /** Updates never change which Discord ids have rows, nor their order. */
  lemma UpdatesKeepIds(t: Table, d: int, v: Option<int>, when: int)
    ensures DistinctIds(t) ==> DistinctIds(SetOsu(t, d, v)) && DistinctIds(SetLastChecked(t, d, when))
    ensures forall x :: HasRow(SetOsu(t, d, v), x) <==> HasRow(t, x)
    ensures forall x :: HasRow(SetLastChecked(t, d, when), x) <==> HasRow(t, x)
  {
    var a, b := SetOsu(t, d, v), SetLastChecked(t, d, when);
    forall x ensures HasRow(a, x) <==> HasRow(t, x) {
      if HasRow(t, x) { var i :| 0 <= i < |t| && t[i].discordId == x; assert a[i].discordId == x; }
      if HasRow(a, x) { var i :| 0 <= i < |a| && a[i].discordId == x; assert t[i].discordId == x; }
    }
    forall x ensures HasRow(b, x) <==> HasRow(t, x) {
      if HasRow(t, x) { var i :| 0 <= i < |t| && t[i].discordId == x; assert b[i].discordId == x; }
      if HasRow(b, x) { var i :| 0 <= i < |b| && b[i].discordId == x; assert t[i].discordId == x; }
    }
  }

  /** The linked rows of a table with distinct Discord ids have distinct Discord ids too. */
  lemma {:induction false} LinkedRowsDistinct(t: Table)
    requires DistinctIds(t)
    ensures forall i, j :: 0 <= i < j < |LinkedRows(t)| ==> LinkedRows(t)[i].discordId != LinkedRows(t)[j].discordId
  {
    if t != [] {
      var rest := t[1..];
      assert DistinctIds(rest) by {
        forall i, j | 0 <= i < j < |rest| ensures rest[i].discordId != rest[j].discordId {
          assert rest[i] == t[i + 1] && rest[j] == t[j + 1];
        }
      }
      LinkedRowsDistinct(rest);
      if t[0].osuId.Some? {
        var rows := LinkedRows(t);
        assert rows == [LinkRow(t[0].discordId, t[0].osuId.value)] + LinkedRows(rest);
        forall j | 1 <= j < |rows| ensures rows[0].discordId != rows[j].discordId {
          assert rows[j] in LinkedRows(rest);
          var k :| 0 <= k < |rest| && rest[k].osuId == Some(rows[j].osuId) && rest[k].discordId == rows[j].discordId;
          assert rest[k] == t[k + 1];
        }
      }
    }
  }

  /** The linked players of a table with distinct Discord ids have distinct Discord ids too. */
  lemma {:induction false} LinkedPlayersDistinct(t: Table)
    requires DistinctIds(t)
    ensures DistinctIds(LinkedPlayers(t))
  {
    if t != [] {
      var rest := t[1..];
      assert DistinctIds(rest) by {
        forall i, j | 0 <= i < j < |rest| ensures rest[i].discordId != rest[j].discordId {
          assert rest[i] == t[i + 1] && rest[j] == t[j + 1];
        }
      }
      LinkedPlayersDistinct(rest);
      if t[0].osuId.Some? {
        var rows := LinkedPlayers(t);
        assert rows == [t[0]] + LinkedPlayers(rest);
        forall j | 1 <= j < |rows| ensures rows[0].discordId != rows[j].discordId {
          assert rows[j] in LinkedPlayers(rest);
          var k :| 0 <= k < |rest| && rest[k] == rows[j];
          assert rest[k] == t[k + 1];
        }
      }
    }
  }

  /** With unique links, the first holder of an account is its only holder. */
  lemma FirstHolderIsOnly(t: Table, osuId: int)
    requires UniqueLinks(t)
    ensures FirstHolder(t, osuId).Some? ==> Holders(t, osuId) == {FirstHolder(t, osuId).value}
  {
    if FirstHolder(t, osuId).Some? {
      var h := FirstHolder(t, osuId).value;
      forall d | d in Holders(t, osuId) ensures d == h {
        var i :| 0 <= i < |t| && t[i].osuId == Some(osuId) && t[i].discordId == d;
        var j :| 0 <= j < |t| && t[j].osuId == Some(osuId) && t[j].discordId == h;
        assert i == j;
      }
    }
  }

  /** A member whose rows hold no account holds none in particular. */
  lemma UnlinkedHoldsNothing(t: Table, discordId: int, osuId: int)
    requires LinkedOsu(t, discordId).None?
    ensures discordId !in Holders(t, osuId)
  {
  }

  /**
   * Setting a free account on a member keeps the table valid, and leaves that
   * member as the account's only holder when the member has a row; otherwise no one.
   */
  lemma LinkFree(t: Table, discordId: int, osuId: int)
    requires Valid(t) && Holders(t, osuId) == {} && LinkedOsu(t, discordId).None?
    ensures var r := SetOsu(t, discordId, Some(osuId));
      Valid(r) && Holders(r, osuId) == (if HasRow(t, discordId) then {discordId} else {})
  {
    var r := SetOsu(t, discordId, Some(osuId));
    UpdatesKeepIds(t, discordId, Some(osuId), 0);
    forall i | 0 <= i < |t| ensures t[i].osuId != Some(osuId) {
      assert t[i].discordId !in Holders(t, osuId);
    }
    assert forall i :: 0 <= i < |t| ==> (r[i].osuId == Some(osuId) <==> t[i].discordId == discordId);
    forall d ensures d in Holders(r, osuId) <==> HasRow(t, discordId) && d == discordId {
      if d in Holders(r, osuId) {
        var i :| 0 <= i < |r| && r[i].osuId == Some(osuId) && r[i].discordId == d;
      }
      if HasRow(t, discordId) && d == discordId {
        var i :| 0 <= i < |t| && t[i].discordId == discordId;
        assert r[i].osuId == Some(osuId);
      }
    }
  }

  /** Clearing a member's account keeps the table valid and removes the member from every holder set. */
  lemma Unlink(t: Table, discordId: int)
    requires Valid(t)
    ensures var r := SetOsu(t, discordId, None);
      Valid(r) && forall x :: Holders(r, x) == Holders(t, x) - {discordId}
  {
    var r := SetOsu(t, discordId, None);
    UpdatesKeepIds(t, discordId, None, 0);
    forall x ensures Holders(r, x) == Holders(t, x) - {discordId} {
      forall d ensures d in Holders(r, x) <==> d in Holders(t, x) - {discordId} {
        if d in Holders(r, x) {
          var i :| 0 <= i < |r| && r[i].osuId == Some(x) && r[i].discordId == d;
          assert t[i] == r[i];
        }
        if d in Holders(t, x) - {discordId} {
          var i :| 0 <= i < |t| && t[i].osuId == Some(x) && t[i].discordId == d;
          assert r[i] == t[i];
        }
      }
    }
  }

  /** Row by row, the move gives the new member the account, clears the old holder, and leaves the rest. */
  lemma MoveRows(t: Table, discordId: int, holder: int, osuId: int)
    requires Holders(t, osuId) == {holder} && holder != discordId && DistinctIds(t)
    ensures var r := SetOsu(SetOsu(t, discordId, Some(osuId)), holder, None);
      |r| == |t| &&
      forall i :: 0 <= i < |t| ==> (r[i].discordId == t[i].discordId &&
        r[i].osuId == (if t[i].discordId == discordId then Some(osuId) else if t[i].discordId == holder then None else t[i].osuId))
    ensures forall i :: 0 <= i < |t| ==> (t[i].osuId == Some(osuId) <==> t[i].discordId == holder)
  {
    forall i | 0 <= i < |t| ensures t[i].osuId == Some(osuId) <==> t[i].discordId == holder {
      if t[i].osuId == Some(osuId) {
        assert t[i].discordId in Holders(t, osuId);
      }
      if t[i].discordId == holder {
        assert holder in Holders(t, osuId);
        var k :| 0 <= k < |t| && t[k].osuId == Some(osuId) && t[k].discordId == holder;
        assert k == i;
      }
    }
  }

  /**
   * Moving an account from its only holder to an unlinked member: afterwards the
   * new member is its only holder when they have a row, and no one holds it otherwise.
   */
  lemma Move(t: Table, discordId: int, holder: int, osuId: int)
    requires Valid(t) && Holders(t, osuId) == {holder} && holder != discordId && LinkedOsu(t, discordId).None?
    ensures var r := SetOsu(SetOsu(t, discordId, Some(osuId)), holder, None);
      Valid(r) && Holders(r, osuId) == (if HasRow(t, discordId) then {discordId} else {})
  {
    var r := SetOsu(SetOsu(t, discordId, Some(osuId)), holder, None);
    MoveRows(t, discordId, holder, osuId);
    assert DistinctIds(r);
    forall i, j | 0 <= i < j < |r| && r[i].osuId.Some? ensures r[i].osuId != r[j].osuId {
      if r[i].osuId == Some(osuId) {
        assert t[i].discordId == discordId && t[j].discordId != discordId;
      } else {
        assert r[i].osuId == t[i].osuId;
      }
    }
    forall d ensures d in Holders(r, osuId) <==> HasRow(t, discordId) && d == discordId {
      if d in Holders(r, osuId) {
        var i :| 0 <= i < |r| && r[i].osuId == Some(osuId) && r[i].discordId == d;
      }
      if HasRow(t, discordId) && d == discordId {
        var i :| 0 <= i < |t| && t[i].discordId == discordId;
        assert r[i].osuId == Some(osuId);
      }
    }
  }
}
