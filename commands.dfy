/**
 * Two chat commands: `update_user`, which gives every guild member a players
 * row, and `delete`, which removes the bot's own recent messages from the
 * bot-spam channel.
 */
module Commands {
  import opened Wrappers
  import Config
  import Players
  import Text

  /** A guild member as update_user sees them. */
  datatype Member = Member(id: int, name: string)

  const AddedPrefix: string := "Pievienoja "
  const AddedSuffix: string := " datubāzei."
  const NobodyAdded: string := "Nevienu nepievienoja datubāzei."

  /** The members, in guild order, whose id had no row when the command started. */
  function Added(table: Players.Table, members: seq<Member>): (added: seq<Member>)
    decreases |members|
  {
    if members == [] then []
    else
      var init := members[..|members| - 1];
      var m := members[|members| - 1];
      if Players.HasRow(table, m.id) then Added(table, init) else Added(table, init) + [m]
  }

  /** Exactly the members without a row are added, and no more of them than there are members. */
  lemma {:induction false} AddedIff(table: Players.Table, members: seq<Member>)
    ensures |Added(table, members)| <= |members|
    ensures forall m :: m in Added(table, members) <==> m in members && !Players.HasRow(table, m.id)
    decreases |members|
  {
    if members != [] {
      var init := members[..|members| - 1];
      AddedIff(table, init);
      assert forall x :: x in members <==> x in init || x == members[|members| - 1];
    }
  }

  /** `INSERT INTO players (discord_id)` for each of `ms`, in order. */
  function RowsFor(ms: seq<Member>): (rows: Players.Table)
    ensures |rows| == |ms| && forall k :: 0 <= k < |ms| ==> rows[k] == Players.Player(ms[k].id, None, None)
    decreases |ms|
  {
    if ms == [] then [] else RowsFor(ms[..|ms| - 1]) + [Players.Player(ms[|ms| - 1].id, None, None)]
  }

  function Names(ms: seq<Member>): (names: seq<string>)
    ensures |names| == |ms| && forall k :: 0 <= k < |ms| ==> names[k] == ms[k].name
  {
    seq(|ms|, k requires 0 <= k < |ms| => ms[k].name)
  }

  /** The reply: the added names joined by ", ", or that nobody was added. */
  function UpdateReply(added: seq<Member>): string {
    if added == [] then NobodyAdded else AddedPrefix + Text.Join(Names(added), ", ") + AddedSuffix
  }

  /** The reply says nobody was added exactly when nobody was. */
  lemma NobodyAddedIff(added: seq<Member>)
    ensures UpdateReply(added) == NobodyAdded <==> added == []
  {
    if added != [] {
      assert UpdateReply(added)[0] == 'P';
    }
  }

  /**
   * After update_user, every guild member has a row; the rows that were there
   * stay as they were, and the new rows are exactly one per member that had none.
   */
  lemma BackfillCovers(table: Players.Table, members: seq<Member>)
    ensures var t := table + RowsFor(Added(table, members));
      t[..|table|] == table && forall m :: m in members ==> Players.HasRow(t, m.id)
  {
    var added := Added(table, members);
    AddedIff(table, members);
    var t := table + RowsFor(added);
    assert t[..|table|] == table;
    forall m | m in members ensures Players.HasRow(t, m.id) {
      if Players.HasRow(table, m.id) {
        var i :| 0 <= i < |table| && table[i].discordId == m.id;
        assert t[i] == table[i];
      } else {
        assert m in added;
        var k :| 0 <= k < |added| && added[k] == m;
        assert t[|table| + k] == Players.Player(m.id, None, None);
      }
    }
  }

  /** With one entry per guild member, the backfill keeps discord_id a key and the links unique. */
  lemma BackfillKeepsValid(table: Players.Table, members: seq<Member>)
    requires Players.Valid(table)
    requires forall i, j :: 0 <= i < j < |members| ==> members[i].id != members[j].id
    ensures Players.Valid(table + RowsFor(Added(table, members)))
  {
    var added := Added(table, members);
    AddedIff(table, members);
    var t := table + RowsFor(added);
    forall i, j | 0 <= i < j < |added| ensures added[i].id != added[j].id {
      assert added[i] in members && added[j] in members;
      var p :| 0 <= p < |members| && members[p] == added[i];
      var q :| 0 <= q < |members| && members[q] == added[j];
      if p == q {
        AddedDistinct(table, members, i, j);
      }
    }
    forall i, j | 0 <= i < j < |t| ensures t[i].discordId != t[j].discordId {
      if j >= |table| && i < |table| {
        assert added[j - |table|] in added;
        assert t[j].discordId == added[j - |table|].id;
      }
    }
  }

  /** Added lists each member at most once. */
  lemma {:induction false} AddedDistinct(table: Players.Table, members: seq<Member>, i: nat, j: nat)
    requires forall a, b :: 0 <= a < b < |members| ==> members[a].id != members[b].id
    requires i < j < |Added(table, members)|
    ensures Added(table, members)[i] != Added(table, members)[j]
    decreases |members|
  {
    var n := |members| - 1;
    var init := members[..n];
    assert forall a, b :: 0 <= a < b < n ==> init[a].id != init[b].id by {
      forall a, b | 0 <= a < b < n ensures init[a].id != init[b].id {
        assert init[a] == members[a] && init[b] == members[b];
      }
    }
    var prev := Added(table, init);
    AddedIff(table, init);
    if j < |prev| {
      AddedDistinct(table, init, i, j);
    } else {
      assert Added(table, members)[j] == members[n];
      assert prev[i] in init;
      var p :| 0 <= p < n && init[p] == prev[i];
      assert members[p] == prev[i];
    }
  }

  /** One member of the update_user loop: what it does to the rows, the reply text and the flag. */
  lemma UpdateStep(table: Players.Table, members: seq<Member>, i: nat, t: Players.Table, users: string)
    requires i < |members|
    requires t == table + RowsFor(Added(table, members[..i]))
    requires users == AddedPrefix + Text.Terminated(Names(Added(table, members[..i])), ", ")
    ensures var m := members[i];
      !Players.HasRow(table, m.id) ==>
        (Players.Insert(t, m.id) == table + RowsFor(Added(table, members[..i + 1])) &&
         users + m.name + ", " == AddedPrefix + Text.Terminated(Names(Added(table, members[..i + 1])), ", ") &&
         Added(table, members[..i + 1]) != [])
    ensures Players.HasRow(table, members[i].id) ==> Added(table, members[..i + 1]) == Added(table, members[..i])
  {
    var before := Added(table, members[..i]);
    var m := members[i];
    assert members[..i + 1][..i] == members[..i];
    if !Players.HasRow(table, m.id) {
      var after := before + [m];
      assert Added(table, members[..i + 1]) == after;
      assert after[..|before|] == before;
      assert RowsFor(after) == RowsFor(before) + [Players.Player(m.id, None, None)];
      assert table + (RowsFor(before) + [Players.Player(m.id, None, None)]) == t + [Players.Player(m.id, None, None)];
      assert Names(after)[..|before|] == Names(before);
      assert Text.Terminated(Names(after), ", ") == Text.Terminated(Names(before), ", ") + m.name + ", ";
      assert AddedPrefix + (Text.Terminated(Names(before), ", ") + m.name + ", ") == users + m.name + ", ";
    }
  }

  /**
   * update_user: outside the bot channel nothing happens; otherwise the absent
   * members get rows and the reply names them.
   */
  method UpdateUser(botChannelId: int, channelId: int, members: seq<Member>, table: Players.Table)
    returns (t: Players.Table, reply: Option<string>)
    ensures channelId != botChannelId ==> t == table && reply == None
    ensures channelId == botChannelId ==>
      (t == table + RowsFor(Added(table, members)) && reply == Some(UpdateReply(Added(table, members))))
  {
    if channelId != botChannelId {
      return table, None;
    }
    t := table;
    var users := AddedPrefix;
    var added := false;
    for i := 0 to |members|
      invariant t == table + RowsFor(Added(table, members[..i]))
      invariant users == AddedPrefix + Text.Terminated(Names(Added(table, members[..i])), ", ")
      invariant added <==> Added(table, members[..i]) != []
    {
      var member := members[i];
      UpdateStep(table, members, i, t, users);
      if !Players.HasRow(table, member.id) {
        t := Players.Insert(t, member.id);
        users := users + member.name + ", ";
        added := true;
      }
    }
    assert members[..|members|] == members;
    if added {
      Text.TrimmedIsJoin(AddedPrefix, Names(Added(table, members)), ", ");
      reply := Some(Text.RemoveSuffix(users, ", ") + AddedSuffix);
    } else {
      reply := Some(NobodyAdded);
    }
  }

  /** How Discord answers a message delete. */
  datatype DeleteOutcome = Removed | Forbidden | NotFound

  /** A message in the channel's history, newest first, and how deleting it would go. */
  datatype ChannelMessage = ChannelMessage(id: int, authorId: int, onDelete: DeleteOutcome)

  /** channel.history(limit=20). */
  const HistoryLimit: nat := 20

  function Window(history: seq<ChannelMessage>): (w: seq<ChannelMessage>)
    ensures |w| <= HistoryLimit && |w| <= |history| && w == history[..|w|]
    ensures |history| >= HistoryLimit ==> |w| == HistoryLimit
  {
    if |history| <= HistoryLimit then history else history[..HistoryLimit]
  }

  /** The ids deleted so far, and whether a Forbidden stopped the cleanup. */
  datatype Cleanup = Cleanup(deleted: seq<int>, forbidden: bool)

  function CleanupStep(c: Cleanup, m: ChannelMessage): Cleanup {
    if c.forbidden || m.authorId != Config.BotSelfId then c
    else match m.onDelete
      case Removed => c.(deleted := c.deleted + [m.id])
      case Forbidden => c.(forbidden := true)
      case NotFound => c
  }

  /** The cleanup over `window`, in history order. */
  function CleanupOf(window: seq<ChannelMessage>): Cleanup
    decreases |window|
  {
    if window == [] then Cleanup([], false)
    else CleanupStep(CleanupOf(window[..|window| - 1]), window[|window| - 1])
  }

  /**
   * Only the bot's own messages are deleted, each one that Discord removed;
   * the cleanup stops exactly when deleting one of the bot's messages is forbidden.
   */
  lemma {:induction false} CleanupSound(window: seq<ChannelMessage>)
    ensures |CleanupOf(window).deleted| <= |window|
    ensures forall x :: x in CleanupOf(window).deleted ==>
      exists m :: m in window && m.id == x && m.authorId == Config.BotSelfId && m.onDelete == Removed
    ensures CleanupOf(window).forbidden <==>
      exists m :: m in window && m.authorId == Config.BotSelfId && m.onDelete == Forbidden
    decreases |window|
  {
    if window != [] {
      var init := window[..|window| - 1];
      CleanupSound(init);
      assert forall m :: m in window <==> m in init || m == window[|window| - 1];
    }
  }

  /** Without a Forbidden, every message of the bot that Discord would remove is deleted. */
  lemma {:induction false} CleanupComplete(window: seq<ChannelMessage>, k: nat)
    requires k < |window| && !CleanupOf(window).forbidden
    requires window[k].authorId == Config.BotSelfId && window[k].onDelete == Removed
    ensures window[k].id in CleanupOf(window).deleted
    decreases |window|
  {
    var n := |window| - 1;
    if k < n {
      assert window[..n][k] == window[k];
      CleanupComplete(window[..n], k);
    }
  }

  const NoPermission: string := "You don't have permission to use this command."
  const NoChannel: string := "Target channel not found."
  const DeleteForbidden: string := "Bot lacks permission to delete messages."

  function DeleteReply(c: Cleanup): string {
    if c.forbidden then DeleteForbidden else "Deleted " + Config.ShowNat(|c.deleted|) + " messages."
  }

  /**
   * delete: the permission check, then the channel check, then the cleanup of
   * the bot's messages among the last 20, counting the ones removed.
   */
  method Delete(canManageMessages: bool, channelExists: bool, history: seq<ChannelMessage>)
    returns (removed: seq<int>, reply: string)
    ensures !canManageMessages ==> removed == [] && reply == NoPermission
    ensures canManageMessages && !channelExists ==> removed == [] && reply == NoChannel
    ensures canManageMessages && channelExists ==>
      (removed == CleanupOf(Window(history)).deleted && reply == DeleteReply(CleanupOf(Window(history))))
  {
    removed := [];
    if !canManageMessages {
      return [], NoPermission;
    }
    if !channelExists {
      return [], NoChannel;
    }
    var window := Window(history);
    var deleted: nat := 0;
    for i := 0 to |window|
      invariant CleanupOf(window[..i]) == Cleanup(removed, false)
      invariant deleted == |removed|
    {
      assert window[..i + 1][..i] == window[..i];
      var message := window[i];
      if message.authorId == Config.BotSelfId {
        match message.onDelete {
          case Removed =>
            removed := removed + [message.id];
            deleted := deleted + 1;
          case Forbidden =>
            ForbiddenSticks(window, i + 1);
            return removed, DeleteForbidden;
          case NotFound =>
        }
      }
    }
    assert window[..|window|] == window;
    reply := "Deleted " + Config.ShowNat(deleted) + " messages.";
  }

  /** Once forbidden, the rest of the window changes nothing. */
  lemma {:induction false} ForbiddenSticks(window: seq<ChannelMessage>, i: nat)
    requires i <= |window| && CleanupOf(window[..i]).forbidden
    ensures CleanupOf(window) == CleanupOf(window[..i])
    decreases |window|
  {
    if i < |window| {
      var n := |window| - 1;
      assert window[..n][..i] == window[..i];
      ForbiddenSticks(window[..n], i);
    } else {
      assert window[..i] == window;
    }
  }
}
