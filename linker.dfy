/**
 * The identity linker (link_acc): every few minutes it reads the osu! rich
 * presence of every guild member, extracts the username shown in the presence
 * text, looks the account up, and links a free Latvian account to an unlinked
 * member, moves an account that another member holds, tags players from other
 * countries with the immigrant role, and notices members who play on an account
 * other than the linked one.
 *
 * Three versions are modelled: bot.py (Original), cogs/link_user.py (Legacy)
 * and src/cogs/link_user.py (Current).
 */
module Linker {
  import opened Wrappers
  import Players
  import Guild

  datatype Version = Original | Legacy | Current

  const OsuApplicationId: int := 367827983903490050
  const ImmigrantRoleId: int := 539951111382237198

  /**
   * A presence activity: one without an `application_id` attribute (custom status,
   * Spotify, game, streaming), or an application activity with its optional
   * `large_image_text`.
   */
  datatype Activity = Other | App(applicationId: int, largeImageText: Option<string>)

  /** A guild member's id and current activities. */
  datatype Presence = Presence(memberId: int, activities: seq<Activity>)

  /** An osu! account as the user lookup returns it. */
  datatype Account = Account(id: int, country: string, username: string)

  /** What the outside world answers during one run. */
  datatype Env = Env(
    /** The lookup by username: None when it fails (`{'error': None}` or an exception). */
    lookup: string -> Option<Account>,
    /** Whether the guild has the immigrant role. */
    immigrantRoleExists: bool,
    /** Whether BOT_CHANNEL_ID names a text channel. */
    channelExists: bool)

  /** The messages the linker sends to the bot channel. */
  datatype Message =
    | Linked(member: int, osuId: int)                      // "Pievienoja ... datubāzei ar osu! kontu ..."
    | Moved(member: int, osuId: int, oldOwner: int)         // "... Vecais konts unlinkots un linkots jaunais."
    | Immigrant(member: int)                                 // "... nav no Latvijas! (Pievienots imigranta role)"
    | OtherAccount(member: int, linkedId: int, playingId: int) // "... jau eksistē ar osu! id ..."
    | Failed                                                 // "<repr(e)> in link_acc"
    | Finished                                               // "Kontu savienošanas operācija pabeigta."

  /** The players table, member roles, the seen-list, messages sent and refresh_user_rank calls. */
  datatype World = World(table: Players.Table, roles: Guild.Members, sent: seq<(int, int)>,
                         messages: seq<Message>, refreshes: seq<int>)

  /** After one activity: go on, skip the member's remaining activities, or abort the run. */
  datatype Step = Next(w: World) | EndMember(w: World) | Abort(w: World)

  /** After some members: the run goes on, or has aborted. */
  datatype Pass = Done(w: World) | Aborted(w: World)

  /** `text.split("(", 1)[0]`: the text before the first '('. */
  function BeforeParen(text: string): (r: string)
    ensures r <= text && '(' !in r
    ensures '(' in text ==> |r| < |text| && text[|r|] == '('
    ensures '(' !in text ==> r == text
  {
    if text == [] then []
    else if text[0] == '(' then []
    else [text[0]] + BeforeParen(text[1..])
  }

  /** `s.removesuffix(" ")`. */
  function RemoveTrailingSpace(s: string): (r: string)
    ensures r == s || (s == r + " ")
  {
    if |s| > 0 && s[|s| - 1] == ' ' then s[..|s| - 1] else s
  }

  /** The username shown in the osu! presence text. */
  function Username(text: string): string {
    RemoveTrailingSpace(BeforeParen(text))
  }

  /** The extraction leaves the text unchanged exactly when it has no '(' and no trailing space. */
  lemma UsernameUnchanged(text: string)
    ensures Username(text) == text <==> '(' !in text && (text == [] || text[|text| - 1] != ' ')
  {
    var p := BeforeParen(text);
    if '(' in text {
      assert |Username(text)| <= |p| < |text|;
    } else if text != [] && text[|text| - 1] == ' ' {
      assert |Username(text)| == |text| - 1;
    }
  }

  /** The presence text "name (rank #n)" yields "name". */
  lemma UsernameOfPresenceText(name: string, rest: string)
    requires '(' !in name
    ensures Username(name + " (" + rest) == name
  {
    var text := name + " (" + rest;
    var p := BeforeParen(text);
    assert text[|name| + 1] == '(';
    assert forall k :: 0 <= k <= |name| ==> text[k] != '(' by {
      forall k | 0 <= k <= |name| ensures text[k] != '(' {
        if k < |name| {
          assert text[k] == name[k];
        }
      }
    }
    assert p == text[..|p|];
    assert |p| == |name| + 1;
    assert p == name + " ";
  }

  function RolesOf(roles: Guild.Members, member: int): seq<int> {
    if member in roles then roles[member] else []
  }

  /** `r` has one more message than `w`: that the account was linked to, or moved to, the member. */
  predicate AnnouncesLink(w: World, r: World, member: int, osuId: int) {
    |r.messages| == |w.messages| + 1 && r.messages[..|w.messages|] == w.messages &&
    (r.messages[|w.messages|] == Linked(member, osuId) ||
     (r.messages[|w.messages|].Moved? && r.messages[|w.messages|].member == member && r.messages[|w.messages|].osuId == osuId))
  }

  /**
   * Linking an LV account to a member without a linked account: set it when no
   * one holds it, move it from its first holder otherwise. Since the bot.py
   * version no refresh_user_rank follows.
   */
  function LinkStep(v: Version, w: World, member: int, osuId: int): (r: World)
    ensures r.sent == w.sent && r.roles == w.roles
    ensures r == w ||
      (AnnouncesLink(w, r, member, osuId) && r.refreshes == w.refreshes + (if v == Original then [] else [member]))
  {
    var refresh := if v == Original then [] else [member];
    match Players.FirstHolder(w.table, osuId)
    case None =>
      w.(table := Players.SetOsu(w.table, member, Some(osuId)),
         messages := w.messages + [Linked(member, osuId)],
         refreshes := w.refreshes + refresh)
    case Some(holder) =>
      if holder != member then
        w.(table := Players.SetOsu(Players.SetOsu(w.table, member, Some(osuId)), holder, None),
           messages := w.messages + [Moved(member, osuId, holder)],
           refreshes := w.refreshes + refresh)
      else w
  }

  /** A non-LV account: the immigrant role, unless the member has it (bot.py does not check). */
  function ImmigrantStep(v: Version, env: Env, w: World, member: int): (s: Step)
    ensures !s.EndMember? && s.w.table == w.table && s.w.sent == w.sent && s.w.refreshes == w.refreshes
    ensures s.Abort? <==> v == Original && !env.immigrantRoleExists
    ensures s.w != w ==>
      (s.w.messages == w.messages + [Immigrant(member)] &&
       s.w.roles == w.roles[member := Guild.AddRole(RolesOf(w.roles, member), ImmigrantRoleId)])
    ensures ImmigrantRoleId in RolesOf(s.w.roles, member) <==>
      ImmigrantRoleId in RolesOf(w.roles, member) || (s.Next? && env.immigrantRoleExists)
    ensures v != Original && ImmigrantRoleId in RolesOf(w.roles, member) ==> s == Next(w)
    ensures env.immigrantRoleExists && (v == Original || ImmigrantRoleId !in RolesOf(w.roles, member)) ==>
      s.Next? && s.w.messages == w.messages + [Immigrant(member)]
  {
    var roles := RolesOf(w.roles, member);
    if v != Original && ImmigrantRoleId in roles then Next(w)
    else if !env.immigrantRoleExists then (if v == Original then Abort(w) else Next(w))
    else Next(w.(roles := w.roles[member := Guild.AddRole(roles, ImmigrantRoleId)],
                 messages := w.messages + [Immigrant(member)]))
  }

  /**
   * A linked member playing on another account: bot.py sends the notice every
   * time; the later versions record the (playing, linked) pair on first sight,
   * the current one also sending the notice then.
   */
  function NoticeStep(v: Version, w: World, member: int, linkedId: int, playingId: int): (r: World)
    ensures r.table == w.table && r.roles == w.roles && r.refreshes == w.refreshes
    ensures v == Original ==> r.sent == w.sent && r.messages == w.messages + [OtherAccount(member, linkedId, playingId)]
    ensures v != Original ==> r.sent == w.sent + (if (playingId, linkedId) in w.sent then [] else [(playingId, linkedId)])
    ensures v != Original ==>
      r.messages == w.messages + (if v == Current && (playingId, linkedId) !in w.sent then [OtherAccount(member, linkedId, playingId)] else [])
  {
    var pair := (playingId, linkedId);
    match v
    case Original => w.(messages := w.messages + [OtherAccount(member, linkedId, playingId)])
    case Legacy => if pair in w.sent then w else w.(sent := w.sent + [pair])
    case Current =>
      if pair in w.sent then w
      else w.(messages := w.messages + [OtherAccount(member, linkedId, playingId)], sent := w.sent + [pair])
  }

  /** What happens once the account shown in a member's presence has been found. */
  function AccountStep(v: Version, env: Env, w: World, member: int, acc: Account): Step {
    match Players.LinkedOsu(w.table, member)
    case None =>
      if v == Current && !Players.HasRow(w.table, member) then Next(w)
      else if acc.country == "LV" then Next(LinkStep(v, w, member, acc.id))
      else ImmigrantStep(v, env, w, member)
    case Some(linked) =>
      if acc.id == linked then Next(w) else Next(NoticeStep(v, w, member, linked, acc.id))
  }

  /** One activity of one member. */
  function ActivityStep(v: Version, env: Env, w: World, member: int, a: Activity): Step {
    match a
    case Other => if v == Original then EndMember(w) else Next(w)
    case App(appId, text) =>
      if appId != OsuApplicationId then Next(w)
      else if text.None? then (if v == Original then Abort(w) else Next(w))
      else
        var username := Username(text.value);
        if v != Original && username == text.value then Next(w)
        else match env.lookup(username)
          case None => if v == Original then Abort(w) else Next(w)
          case Some(acc) => AccountStep(v, env, w, member, acc)
  }

  /** A member's activities, in order, until one ends the member or the run. */
  function Activities(v: Version, env: Env, w: World, member: int, acts: seq<Activity>): Step
    decreases |acts|
  {
    if acts == [] then Next(w)
    else match Activities(v, env, w, member, acts[..|acts| - 1])
      case Next(r) => ActivityStep(v, env, r, member, acts[|acts| - 1])
      case EndMember(r) => EndMember(r)
      case Abort(r) => Abort(r)
  }

  /** The members, in order, until an activity aborts the run. */
  function Scan(v: Version, env: Env, w: World, ps: seq<Presence>): Pass
    decreases |ps|
  {
    if ps == [] then Done(w)
    else match Scan(v, env, w, ps[..|ps| - 1])
      case Aborted(r) => Aborted(r)
      case Done(r) =>
        var p := ps[|ps| - 1];
        match Activities(v, env, r, p.memberId, p.activities)
        case Abort(x) => Aborted(x)
        case Next(x) => Done(x)
        case EndMember(x) => Done(x)
  }

  /**
   * A whole run. The current version does nothing without its channel; an abort
   * reports the error; bot.py reports the end of a run.
   */
  function Run(v: Version, env: Env, w: World, ps: seq<Presence>): World {
    if v == Current && !env.channelExists then w
    else match Scan(v, env, w, ps)
      case Done(r) => if v == Original then r.(messages := r.messages + [Finished]) else r
      case Aborted(r) => r.(messages := r.messages + [Failed])
  }

  /** Once a member's activities stop, later activities change nothing. */
  lemma {:induction false} StopSticks(v: Version, env: Env, w: World, member: int, acts: seq<Activity>, k: nat)
    requires k <= |acts| && !Activities(v, env, w, member, acts[..k]).Next?
    ensures Activities(v, env, w, member, acts) == Activities(v, env, w, member, acts[..k])
    decreases |acts|
  {
    if k < |acts| {
      assert acts[..|acts| - 1][..k] == acts[..k];
      StopSticks(v, env, w, member, acts[..|acts| - 1], k);
    } else {
      assert acts[..k] == acts;
    }
  }

  /** Once the run aborts, later members change nothing. */
  lemma {:induction false} AbortSticks(v: Version, env: Env, w: World, ps: seq<Presence>, k: nat)
    requires k <= |ps| && Scan(v, env, w, ps[..k]).Aborted?
    ensures Scan(v, env, w, ps) == Scan(v, env, w, ps[..k])
    decreases |ps|
  {
    if k < |ps| {
      assert ps[..|ps| - 1][..k] == ps[..k];
      AbortSticks(v, env, w, ps[..|ps| - 1], k);
    } else {
      assert ps[..k] == ps;
    }
  }

  // ---------------------------------------------------------------------------
  // The link table stays valid: at most one member holds each osu! account.

  /**
   * Linking or moving an account to a member without one: afterwards that member
   * is the only holder, when the member has a row.
   */
  lemma LinkStepSoleHolder(v: Version, w: World, member: int, osuId: int)
    requires Players.Valid(w.table) && Players.LinkedOsu(w.table, member).None?
    ensures var r := LinkStep(v, w, member, osuId);
      Players.Valid(r.table) &&
      Players.Holders(r.table, osuId) == (if Players.HasRow(w.table, member) then {member} else {}) &&
      AnnouncesLink(w, r, member, osuId)
  {
    Players.FirstHolderIsOnly(w.table, osuId);
    Players.UnlinkedHoldsNothing(w.table, member, osuId);
    match Players.FirstHolder(w.table, osuId)
    case None =>
      Players.LinkFree(w.table, member, osuId);
    case Some(holder) =>
      Players.Move(w.table, member, holder, osuId);
  }

  /**
   * In the current version, a member shown playing on a Latvian account and not
   * yet linked becomes its only holder and gets one rank refresh when they have a
   * row; without a row nothing happens.
   */
  lemma CurrentLinkOrMove(env: Env, w: World, member: int, acc: Account)
    requires Players.Valid(w.table) && Players.LinkedOsu(w.table, member).None? && acc.country == "LV"
    ensures var r := AccountStep(Current, env, w, member, acc).w;
      (Players.HasRow(w.table, member) ==>
        Players.Holders(r.table, acc.id) == {member} && r.refreshes == w.refreshes + [member]) &&
      (!Players.HasRow(w.table, member) ==> r == w)
  {
    if Players.HasRow(w.table, member) {
      LinkStepSoleHolder(Current, w, member, acc.id);
    }
  }

  /** One activity keeps the table valid. */
  lemma ActivityStepValid(v: Version, env: Env, w: World, member: int, a: Activity)
    requires Players.Valid(w.table)
    ensures Players.Valid(ActivityStep(v, env, w, member, a).w.table)
  {
    if a.App? && a.applicationId == OsuApplicationId && a.largeImageText.Some? {
      var acc := env.lookup(Username(a.largeImageText.value));
      if acc.Some? && Players.LinkedOsu(w.table, member).None? && acc.value.country == "LV" {
        LinkStepSoleHolder(v, w, member, acc.value.id);
      }
    }
  }

  lemma {:induction false} ActivitiesValid(v: Version, env: Env, w: World, member: int, acts: seq<Activity>)
    requires Players.Valid(w.table)
    ensures Players.Valid(Activities(v, env, w, member, acts).w.table)
    decreases |acts|
  {
    if acts != [] {
      ActivitiesValid(v, env, w, member, acts[..|acts| - 1]);
      var prev := Activities(v, env, w, member, acts[..|acts| - 1]);
      if prev.Next? {
        ActivityStepValid(v, env, prev.w, member, acts[|acts| - 1]);
      }
    }
  }

  lemma {:induction false} ScanValid(v: Version, env: Env, w: World, ps: seq<Presence>)
    requires Players.Valid(w.table)
    ensures Players.Valid(Scan(v, env, w, ps).w.table)
    decreases |ps|
  {
    if ps != [] {
      ScanValid(v, env, w, ps[..|ps| - 1]);
      var prev := Scan(v, env, w, ps[..|ps| - 1]);
      if prev.Done? {
        ActivitiesValid(v, env, prev.w, ps[|ps| - 1].memberId, ps[|ps| - 1].activities);
      }
    }
  }

  /** Every version keeps every osu! account with at most one holder. */
  lemma RunKeepsLinksUnique(v: Version, env: Env, w: World, ps: seq<Presence>)
    requires Players.Valid(w.table)
    ensures Players.Valid(Run(v, env, w, ps).table)
  {
    ScanValid(v, env, w, ps);
  }

  // ---------------------------------------------------------------------------
  // The "playing on another account" notice is sent at most once per pair.

  function PairOf(m: Message): (int, int)
    requires m.OtherAccount?
  {
    (m.playingId, m.linkedId)
  }

  /**
   * Relative to the seen-list `seen` at the start of a run: the list only grows,
   * every notice's pair is on it and was not on it at the start, and no two
   * notices share a pair.
   */
  predicate Deduplicated(seen: seq<(int, int)>, w: World) {
    seen <= w.sent &&
    (forall i :: 0 <= i < |w.messages| && w.messages[i].OtherAccount? ==>
      PairOf(w.messages[i]) in w.sent && PairOf(w.messages[i]) !in seen) &&
    (forall i, j :: 0 <= i < j < |w.messages| && w.messages[i].OtherAccount? && w.messages[j].OtherAccount? ==>
      PairOf(w.messages[i]) != PairOf(w.messages[j]))
  }

  /** Any other message, or none, keeps the notices deduplicated. */
  lemma AppendKeepsDeduplicated(seen: seq<(int, int)>, w: World, r: World, extra: seq<Message>)
    requires Deduplicated(seen, w) && r.sent == w.sent && r.messages == w.messages + extra
    requires forall m :: m in extra ==> !m.OtherAccount?
    ensures Deduplicated(seen, r)
  {
    forall i | |w.messages| <= i < |r.messages| ensures !r.messages[i].OtherAccount? {
      assert r.messages[i] in extra;
    }
  }

  lemma NoticeKeepsDeduplicated(seen: seq<(int, int)>, w: World, member: int, linkedId: int, playingId: int)
    requires Deduplicated(seen, w)
    ensures Deduplicated(seen, NoticeStep(Current, w, member, linkedId, playingId))
  {
    var r := NoticeStep(Current, w, member, linkedId, playingId);
    if (playingId, linkedId) !in w.sent {
      assert (playingId, linkedId) !in seen;
      forall i | 0 <= i < |w.messages| && w.messages[i].OtherAccount? ensures PairOf(w.messages[i]) != (playingId, linkedId) {
      }
      assert seen <= w.sent <= r.sent;
    }
  }

  lemma ActivityStepDeduplicated(seen: seq<(int, int)>, env: Env, w: World, member: int, a: Activity)
    requires Deduplicated(seen, w)
    ensures Deduplicated(seen, ActivityStep(Current, env, w, member, a).w)
  {
    var s := ActivityStep(Current, env, w, member, a);
    if s.w != w && a.App? && a.largeImageText.Some? {
      var acc := env.lookup(Username(a.largeImageText.value)).value;
      match Players.LinkedOsu(w.table, member)
      case None =>
        if acc.country == "LV" {
          var r := LinkStep(Current, w, member, acc.id);
          assert r.messages == w.messages + r.messages[|w.messages|..];
          AppendKeepsDeduplicated(seen, w, r, r.messages[|w.messages|..]);
        } else {
          AppendKeepsDeduplicated(seen, w, s.w, [Immigrant(member)]);
        }
      case Some(linked) =>
        NoticeKeepsDeduplicated(seen, w, member, linked, acc.id);
    }
  }

  lemma {:induction false} ActivitiesDeduplicated(seen: seq<(int, int)>, env: Env, w: World, member: int, acts: seq<Activity>)
    requires Deduplicated(seen, w)
    ensures Deduplicated(seen, Activities(Current, env, w, member, acts).w)
    decreases |acts|
  {
    if acts != [] {
      ActivitiesDeduplicated(seen, env, w, member, acts[..|acts| - 1]);
      var prev := Activities(Current, env, w, member, acts[..|acts| - 1]);
      if prev.Next? {
        ActivityStepDeduplicated(seen, env, prev.w, member, acts[|acts| - 1]);
      }
    }
  }

  lemma {:induction false} ScanDeduplicated(seen: seq<(int, int)>, env: Env, w: World, ps: seq<Presence>)
    requires Deduplicated(seen, w)
    ensures Deduplicated(seen, Scan(Current, env, w, ps).w)
    decreases |ps|
  {
    if ps != [] {
      ScanDeduplicated(seen, env, w, ps[..|ps| - 1]);
      var prev := Scan(Current, env, w, ps[..|ps| - 1]);
      if prev.Done? {
        ActivitiesDeduplicated(seen, env, prev.w, ps[|ps| - 1].memberId, ps[|ps| - 1].activities);
      }
    }
  }

  /**
   * In the current version, a run notices each (playing, linked) pair at most once,
   * and never a pair already on the seen-list when the run started.
   */
  lemma CurrentNoticesOncePerPair(env: Env, table: Players.Table, roles: Guild.Members, seen: seq<(int, int)>, ps: seq<Presence>)
    ensures Deduplicated(seen, Run(Current, env, World(table, roles, seen, [], []), ps))
  {
    var w := World(table, roles, seen, [], []);
    ScanDeduplicated(seen, env, w, ps);
  }

  /** bot.py repeats the notice on every run, the current version sends it once. */
  lemma NoticeRepeatsOnlyInOriginal(w: World, member: int, linkedId: int, playingId: int)
    ensures var once := NoticeStep(Original, w, member, linkedId, playingId);
      NoticeStep(Original, once, member, linkedId, playingId).messages ==
        w.messages + [OtherAccount(member, linkedId, playingId), OtherAccount(member, linkedId, playingId)]
    ensures var once := NoticeStep(Current, w, member, linkedId, playingId);
      NoticeStep(Current, once, member, linkedId, playingId).messages == once.messages &&
      |once.messages| <= |w.messages| + 1
  {
  }

  // ---------------------------------------------------------------------------
  // Skips.

  /**
   * In the later versions an activity that is not osu!'s, has no presence text,
   * has text the extraction leaves unchanged, or names an account the lookup
   * cannot find, changes nothing.
   */
  lemma SkippedActivitiesChangeNothing(v: Version, env: Env, w: World, member: int, a: Activity)
    requires v != Original
    requires a.Other? || a.applicationId != OsuApplicationId || a.largeImageText.None? ||
      Username(a.largeImageText.value) == a.largeImageText.value || env.lookup(Username(a.largeImageText.value)).None?
    ensures ActivityStep(v, env, w, member, a) == Next(w)
  {
  }

  /** In bot.py a failed lookup or a missing presence text aborts the whole run and reports it. */
  lemma OriginalAbortsOnFailedLookup(env: Env, w: World, member: int, text: string)
    requires env.lookup(Username(text)).None?
    ensures ActivityStep(Original, env, w, member, App(OsuApplicationId, Some(text))) == Abort(w)
    ensures ActivityStep(Original, env, w, member, App(OsuApplicationId, None)) == Abort(w)
    ensures Run(Original, env, w, [Presence(member, [App(OsuApplicationId, Some(text))])]).messages == w.messages + [Failed]
  {
    var ps := [Presence(member, [App(OsuApplicationId, Some(text))])];
    assert ps[..0] == [];
    assert ps[0].activities[..0] == [];
    assert ActivityStep(Original, env, w, member, ps[0].activities[0]) == Abort(w);
    assert Activities(Original, env, w, member, ps[0].activities) == Abort(w);
    assert Scan(Original, env, w, ps) == Aborted(w);
  }

  /** The current version skips a member who has no players row at all: no write, no message. */
  lemma CurrentSkipsMemberWithoutRow(env: Env, w: World, member: int, acc: Account)
    requires !Players.HasRow(w.table, member)
    ensures AccountStep(Current, env, w, member, acc) == Next(w)
  {
    assert Players.LinkedOsu(w.table, member).None?;
  }

  // ---------------------------------------------------------------------------
  // The move of the legacy version for a member without a row.

  /**
   * As written in cogs/link_user.py (and bot.py): a member with no players row
   * shown on an account another member holds "moves" it: the UPDATE for the new
   * member changes no row, the old owner is unlinked, and no one holds the account.
   */
  lemma LegacyMoveUnlinksEveryone()
    ensures var w := World([Players.Player(1, Some(5), None)], map[], [], [], []);
      var r := AccountStep(Legacy, Env((u: string) => Some(Account(5, "LV", u)), true, true), w, 2, Account(5, "LV", "x")).w;
      Players.Holders(w.table, 5) == {1} && Players.Holders(r.table, 5) == {} &&
      r.messages == [Moved(2, 5, 1)]
  {
    var w := World([Players.Player(1, Some(5), None)], map[], [], [], []);
    assert Players.LinkedOsu(w.table, 2).None?;
    assert Players.FirstHolder(w.table, 5) == Some(1);
    var r := AccountStep(Legacy, Env((u: string) => Some(Account(5, "LV", u)), true, true), w, 2, Account(5, "LV", "x")).w;
    assert r.table == [Players.Player(1, None, None)];
    assert 1 in Players.Holders(w.table, 5) by {
      assert w.table[0].osuId == Some(5);
    }
  }

  /** The current version checks for the row first, so the account keeps its holder. */
  lemma CurrentMoveKeepsOwner()
    ensures var w := World([Players.Player(1, Some(5), None)], map[], [], [], []);
      AccountStep(Current, Env((u: string) => Some(Account(5, "LV", u)), true, true), w, 2, Account(5, "LV", "x")) == Next(w)
  {
    var w := World([Players.Player(1, Some(5), None)], map[], [], [], []);
    assert !Players.HasRow(w.table, 2);
    CurrentSkipsMemberWithoutRow(Env((u: string) => Some(Account(5, "LV", u)), true, true), w, 2, Account(5, "LV", "x"));
  }

  /** The cog: the seen-list `already_sent_messages` lives across runs. */
  class LinkUser {
    var alreadySent: seq<(int, int)>

    constructor ()
      ensures alreadySent == []
    {
      alreadySent := [];
    }

    /** The body of the loop over a member's activities; the seen-list is the field. */
    method HandleActivity(v: Version, env: Env, w: World, member: int, a: Activity) returns (s: Step)
      requires w.sent == alreadySent
      modifies this
      ensures s == ActivityStep(v, env, w, member, a)
      ensures alreadySent == s.w.sent
    {
      if a.Other? {
        return if v == Original then EndMember(w) else Next(w);
      }
      if a.applicationId != OsuApplicationId {
        return Next(w);
      }
      if a.largeImageText.None? {
        return if v == Original then Abort(w) else Next(w);
      }
      var text := a.largeImageText.value;
      var username := Username(text);
      if v != Original && username == text {
        return Next(w);
      }
      var found := env.lookup(username);
      if found.None? {
        return if v == Original then Abort(w) else Next(w);
      }
      var acc := found.value;
      var linked := Players.LinkedOsu(w.table, member);
      if linked.None? {
        if v == Current && !Players.HasRow(w.table, member) {
          return Next(w);
        }
        if acc.country == "LV" {
          return Next(LinkStep(v, w, member, acc.id));
        }
        return ImmigrantStep(v, env, w, member);
      }
      if acc.id == linked.value {
        return Next(w);
      }
      var pair := (acc.id, linked.value);
      var messages := w.messages;
      if v == Original {
        messages := messages + [OtherAccount(member, linked.value, acc.id)];
      } else if pair !in alreadySent {
        if v == Current {
          messages := messages + [OtherAccount(member, linked.value, acc.id)];
        }
        alreadySent := alreadySent + [pair];
      }
      return Next(w.(messages := messages, sent := alreadySent));
    }

    /** The inner loop of link_acc over one member's activities, until one of them stops it. */
    method HandleMember(v: Version, env: Env, w: World, member: int, acts: seq<Activity>) returns (s: Step)
      requires w.sent == alreadySent
      modifies this
      ensures s == Activities(v, env, w, member, acts)
      ensures alreadySent == s.w.sent
    {
      var cur := w;
      var j := 0;
      while j < |acts|
        invariant 0 <= j <= |acts|
        invariant Activities(v, env, w, member, acts[..j]) == Next(cur)
        invariant cur.sent == alreadySent
      {
        assert acts[..j + 1][..j] == acts[..j];
        s := HandleActivity(v, env, cur, member, acts[j]);
        j := j + 1;
        if !s.Next? {
          StopSticks(v, env, w, member, acts, j);
          return;
        }
        cur := s.w;
      }
      assert acts[..j] == acts;
      return Next(cur);
    }

    /** link_acc over the members' presences, in order. */
    method LinkAcc(v: Version, env: Env, table: Players.Table, roles: Guild.Members, presences: seq<Presence>)
      returns (r: World)
      modifies this
      ensures r == Run(v, env, World(table, roles, old(alreadySent), [], []), presences)
      ensures alreadySent == r.sent
    {
      var w := World(table, roles, alreadySent, [], []);
      ghost var w0 := w;
      if v == Current && !env.channelExists {
        return w;
      }
      var i := 0;
      while i < |presences|
        invariant 0 <= i <= |presences|
        invariant Scan(v, env, w0, presences[..i]) == Done(w)
        invariant w.sent == alreadySent
      {
        var p := presences[i];
        assert presences[..i + 1][..i] == presences[..i];
        var s := HandleMember(v, env, w, p.memberId, p.activities);
        if s.Abort? {
          AbortSticks(v, env, w0, presences, i + 1);
          return s.w.(messages := s.w.messages + [Failed]);
        }
        w := s.w;
        i := i + 1;
      }
      assert presences[..i] == presences;
      if v == Original {
        w := w.(messages := w.messages + [Finished]);
      }
      return w;
    }
  }
}
