/**
 * The membership listeners: a join gives the member a players row if they
 * had none and announces them, a departure, ban or unban is announced. Every
 * announcement goes to the notifications channel and is silently dropped
 * when that channel cannot be found.
 */
module Events {
  import Players

  /** NOTIFICATIONS_CHANNEL_ID. */
  const NotificationsChannelId: int := 1148984358561136670

  const RipGif: string := "https://tenor.com/view/rip-bozo-gif-22294771"

  /** A guild member as the listeners see them; the mention is Discord's `<@id>` text. */
  datatype Member = Member(id: int, mention: string, displayName: string)

  /** _send_notification: the messages that reach the channel. */
  function Notify(channelExists: bool, message: string): (sent: seq<string>)
    ensures channelExists ==> sent == [message]
    ensures !channelExists ==> sent == []
  {
    if channelExists then [message] else []
  }

  /** The table after a listener, and what reached the notifications channel. */
  datatype Effect = Effect(table: Players.Table, sent: seq<string>)

  function JoinMessage(member: Member, known: bool): string {
    if known then member.mention + " atkal pievienojās serverim!" else member.mention + " pievienojās serverim!"
  }

  /** on_member_join: `get_user` finds the member's rows; with none, `create_user` inserts one. */
  function OnMemberJoin(channelExists: bool, table: Players.Table, member: Member): (e: Effect)
    ensures Players.HasRow(e.table, member.id)
    ensures Players.HasRow(table, member.id) ==> e.table == table
    ensures !Players.HasRow(table, member.id) ==> e.table == Players.Insert(table, member.id)
    ensures e.sent == Notify(channelExists, JoinMessage(member, Players.HasRow(table, member.id)))
  {
    var known := Players.HasRow(table, member.id);
    var t := if known then table else Players.Insert(table, member.id);
    assert t[|t| - 1].discordId == member.id || known;
    Effect(t, Notify(channelExists, JoinMessage(member, known)))
  }

  /** The rows a table holds for one Discord id. */
  function RowsOf(t: Players.Table, discordId: int): (n: nat)
    ensures n == 0 <==> !Players.HasRow(t, discordId)
    decreases |t|
  {
    if t == [] then 0
    else
      var n := RowsOf(t[..|t| - 1], discordId);
      assert Players.HasRow(t, discordId) <==> Players.HasRow(t[..|t| - 1], discordId) || t[|t| - 1].discordId == discordId by {
        if Players.HasRow(t[..|t| - 1], discordId) {
          var i :| 0 <= i < |t| - 1 && t[..|t| - 1][i].discordId == discordId;
          assert t[i] == t[..|t| - 1][i];
        }
      }
      if t[|t| - 1].discordId == discordId then n + 1 else n
  }

  /** A new member gets exactly one row; a known member's rows stay as they were. */
  lemma JoinInsertsOnce(channelExists: bool, table: Players.Table, member: Member)
    ensures !Players.HasRow(table, member.id) ==> RowsOf(OnMemberJoin(channelExists, table, member).table, member.id) == 1
    ensures Players.HasRow(table, member.id) ==> RowsOf(OnMemberJoin(channelExists, table, member).table, member.id) == RowsOf(table, member.id)
  {
    var t := OnMemberJoin(channelExists, table, member).table;
    if !Players.HasRow(table, member.id) {
      assert t[..|t| - 1] == table;
    }
  }

  /** Joining keeps discord_id a key and the links unique. */
  lemma JoinKeepsValid(channelExists: bool, table: Players.Table, member: Member)
    requires Players.Valid(table)
    ensures Players.Valid(OnMemberJoin(channelExists, table, member).table)
  {
    var t := OnMemberJoin(channelExists, table, member).table;
    if !Players.HasRow(table, member.id) {
      forall i | 0 <= i < |table| ensures t[i].discordId != member.id {
        assert t[i] == table[i];
      }
    }
  }

  /** A second join of the same member changes no row and is announced as a return. */
  lemma RejoinIsReturn(channelExists: bool, table: Players.Table, member: Member)
    ensures var first := OnMemberJoin(channelExists, table, member);
      var second := OnMemberJoin(channelExists, first.table, member);
      second.table == first.table && second.sent == Notify(channelExists, member.mention + " atkal pievienojās serverim!")
  {
  }

  /** on_member_remove: the departure text, then the GIF link. */
  function OnMemberRemove(channelExists: bool, member: Member): (sent: seq<string>)
    ensures channelExists ==> sent == ["**" + member.displayName + "** izgāja no servera!", RipGif]
    ensures !channelExists ==> sent == []
  {
    Notify(channelExists, "**" + member.displayName + "** izgāja no servera!") + Notify(channelExists, RipGif)
  }

  /** on_member_ban. */
  function OnMemberBan(channelExists: bool, member: Member): (sent: seq<string>)
    ensures channelExists ==> sent == ["**" + member.displayName + "** ir ticis nobanots no servera!"]
    ensures !channelExists ==> sent == []
  {
    Notify(channelExists, "**" + member.displayName + "** ir ticis nobanots no servera!")
  }

  /** on_member_unban. */
  function OnMemberUnban(channelExists: bool, member: Member): (sent: seq<string>)
    ensures channelExists ==> sent == ["**" + member.displayName + "** ir unbanots no servera!"]
    ensures !channelExists ==> sent == []
  {
    Notify(channelExists, "**" + member.displayName + "** ir unbanots no servera!")
  }
}
