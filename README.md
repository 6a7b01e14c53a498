# osu! Latvia Discord bot — a verified model of its core

This project models the decision logic of the osu! Latvia community Discord
bot in Dafny, and proves properties of it. The bot does the following:

- It mirrors every linked member's rank in the Latvian osu! country
  leaderboard as one of ten tier roles (LV1 … LVinf). There are also two
  sentinel roles, `restricted` and `inactive`.
- It links Discord members to osu! accounts by reading their osu! rich presence.
- It announces new top plays and global top-50 plays.
- It backfills and maintains the `players` table.
- It checks that table's schema at start-up.

Discord, the osu! API and PostgreSQL are abstracted:

- **State.** Guild roles are a map from member id to role-id sequence. The
  `players` table is a sequence of rows in scan order.
- **Answers from outside.** Whatever the outside world answers during one run
  is a function parameter:
  - the leaderboard pages;
  - user lookups;
  - best and recent plays;
  - a beatmap's top 50;
  - whether a channel or role exists.
- **Effects.** Every effect is an entry in a log that the operation returns:
  - messages sent;
  - `refresh_user_rank` calls;
  - osu! ids looked up;
  - scores posted.

Where the repository holds several versions of an operation, each version is
modelled and selected by a `Version` value:

- role sync: `bot.py` (Original) and `src/cogs/roles.py` (Current);
- linker: `bot.py` (Original), `cogs/link_user.py` (Legacy) and
  `src/cogs/link_user.py` (Current).

Modules, one per component:

- **Wrappers**: `Option` and `Result`.
- **Text**: `join` and `removesuffix`.
- **Config**: environment loading, `DATABASE_URL` and `MODS_DICT`.
- **Tiers**: `ROLES`, `REV_ROLES`, `ROLES_VALUE`, `ROLE_TRESHOLDS`,
  `USER_NEWBEST_LIMIT` and `get_role_with_rank`.
- **Guild**: member roles and `change_role`.
- **Players**: the table and its SQL updates.
- **Ranking**: the 20-page leaderboard crawl and the country rank.
- **RoleSync**: `refresh_roles`.
- **Linker**: `link_acc`, including the class that owns `already_sent_messages`.
- **Newbest**: `user_newbest_loop` and `get_user_newbest`.
- **Top50**: `global_top50_loop`, `get_global_top50` and the checks of
  `post_global_top50`.
- **Mods**: `mods_int_from_list`.
- **Schema**: `verify_players_table`.
- **Commands**: `update_user` and `delete`.
- **Events**: the membership listeners.

Loops in the source are `method`s with loop invariants. Each method is proved
equal to a specification function that folds over the same input. The
properties are proved about those functions.

Two behaviours of the code to note:

- **The leaderboard crawl does not stop on an empty page.** The code reads
  `response["cursor"]["page"]` on every one of the 20 requests, so a null
  cursor on any of the 20 responses raises an error. That error aborts the whole
  run with no role changes (`Ranking.NullCursorEndsCrawl`).
- **`src/cogs/roles.py` does not isolate members.** It wraps the whole run in
  one `try`, so it does not isolate one member's failure from the others.
  Only the global top-50 loop does (`Top50.Isolation`).

## Model

| member | source | states |
|---|---|---|
| Config.LoadOutcome | src/config.py:7-16 | Loading succeeds exactly when DISCORD_TOKEN, SERVER_ID and BOT_CHANNEL_ID are all non-empty and the two ids parse as integers. The resulting settings hold exactly those values. A missing variable fails naming the first one missing, in the source's order. |
| Config.ShowNatRoundTrip | src/config.py:15-16 | The integer parse used for SERVER_ID and BOT_CHANNEL_ID reads back every decimal numeral. |
| Config.DatabaseUrl | src/config.py:23-28 | The DATABASE_URL value when it is non-empty. Otherwise `postgresql://user:password@db:5432/db` built from the three POSTGRES_* variables, with `None` for a missing one. |
| Config.ModValuesAreBits | src/config.py:55-71 | Every MODS_DICT value is a single power of two, except NC, which is its own bit plus DT's 64, and PF, which is its own bit plus SD's 32. |
| Config.ModValueDomain | src/config.py:55-71 | The mod table is defined exactly on the MODS_DICT acronyms. |
| Tiers.RoleLookup | src/config.py:45 | A lookup by role id returns a tier from the list with that id, or None exactly when no tier in the list has it. |
| Tiers.TierOfRole | src/config.py:45 | REV_ROLES is defined exactly on the role ids of ROLES and maps each back to a tier with that id. |
| Tiers.RolesInjective | src/config.py:30-43 | Distinct tiers have distinct role ids, names and values, so all twelve role ids are distinct. |
| Tiers.RevRolesInvertsRoles | bot.py:25-40 | `rev_roles` inverts `roles` in both directions. |
| Tiers.ValueIsDeclarationIndex | src/config.py:46 | ROLES_VALUE is the declaration index 0..11. Only the two sentinels exceed 9. The rank tiers are exactly the first ten. |
| Tiers.TierForRank | bot.py:44-65 | `get_role_with_rank` is defined exactly for rank >= 1. It always yields a rank tier, never a sentinel. |
| Tiers.TierForRankBoundaries | bot.py:44-65 | The range ends: 1→LV1, 2 and 5→LV5, 6 and 10→LV10, 11 and 25→LV25, 26→LV50, 1000→LV1000, 1001 and 99999→LVinf. Rank 0 has no tier. |
| Tiers.TierForRankPartition | bot.py:44-65 | A rank maps to a tier exactly when it lies in that tier's inclusive range, as bounded by the thresholds. |
| Tiers.TierForRankMonotonic | bot.py:42-65 | For 1 <= r1 <= r2, the value of r1's tier is at most that of r2's tier: a better rank never gives a worse tier. |
| Tiers.ThresholdsIncreasing | src/config.py:98-108 | ROLE_TRESHOLDS lists the nine tiers LV1…LV1000 in order, with strictly increasing bounds. |
| Tiers.ThresholdScanFrom | src/config.py:98-108 | Scanning the thresholds from any index whose lower bounds the rank already passes finds the tier `get_role_with_rank` gives. |
| Tiers.TierForRankMatchesThresholds | src/config.py:98-108 | The threshold scan gives the same tier as `get_role_with_rank` for every rank >= 1. The thresholds are the inclusive upper ends of its ranges. |
| Tiers.NewbestLimit | src/config.py:85-96 | USER_NEWBEST_LIMIT is defined for the ten rank tiers, with values between 1 and 100. |
| Tiers.NewbestLimitDecreasing | src/config.py:85-96 | The limit strictly decreases with the tier value, from 100 for LV1 to 1 for LVinf. |
| Guild.TierRoles | src/cogs/roles.py:48-52 | The tier roles of a member's role list number at most the roles. |
| Guild.TierRolesMembers | src/cogs/roles.py:48-52 | A tier is among a member's tier roles exactly when its role id is in the member's roles. |
| Guild.TierRolesAppend | src/cogs/roles.py:48-52 | Adding a role appends its tier when it is a tier role, and nothing otherwise. |
| Guild.NoTierIdsNoTierRoles | src/cogs/roles.py:48-52 | A member without any tier role id has no current tier. |
| Guild.RemoveRole | bot.py:230-233 | `remove_roles` leaves exactly the other roles. |
| Guild.AddRole | bot.py:234 | `add_roles` adds exactly the new role. |
| Guild.RemoveOnlyTier | bot.py:230-234 | On a member with at most one tier role, removing the current tier role leaves no tier role. |
| Guild.ChangeRoleSetsTier | bot.py:230-234 | For such a member, `change_role` leaves exactly the new tier as the only tier role. |
| Players.LinkedRows | bot.py:349 | The `osu_id IS NOT NULL` selection holds exactly the linked (discord_id, osu_id) pairs of the table. |
| Players.LinkedPlayers | src/cogs/user_newbest.py:44 | `SELECT *` of linked rows holds exactly the table's linked rows. |
| Players.LinkedOsu | src/cogs/link_user.py:73-76 | The member's linked osu! id is from their row; None means none of their rows is linked. |
| Players.FirstHolder | src/cogs/link_user.py:92-117 | The first holder of an osu! id is one of its holders; None means nobody holds it. |
| Players.SetOsu | bot.py:279-289 | `UPDATE … SET osu_id` changes exactly the named member's rows, and only their osu_id. |
| Players.SetLastChecked | src/cogs/user_newbest.py:73-75 | `UPDATE … SET last_checked` changes exactly the named member's rows, and only their last_checked. |
| Players.Insert | src/db/db.py:19-24 | `create_user` appends one row with NULL osu_id and last_checked. |
| Players.UpdatesKeepIds | bot.py:279-289 | Updates never add or remove Discord ids and keep them distinct. |
| Players.LinkedRowsDistinct | bot.py:349-354 | Linked rows of a table keyed by discord_id have distinct discord ids. |
| Players.LinkedPlayersDistinct | src/cogs/user_newbest.py:44-47 | The same holds for `SELECT *` of linked rows. |
| Players.FirstHolderIsOnly | src/cogs/link_user.py:110-124 | Under unique links, the first holder is the only holder. |
| Players.UnlinkedHoldsNothing | src/cogs/link_user.py:86-90 | An unlinked member holds no osu! id. |
| Players.LinkFree | bot.py:279-285 | Linking a free account to an unlinked member keeps the table valid. Afterwards that member, and only that member, holds the id, provided they have a row. |
| Players.Unlink | bot.py:286-289 | Setting a member's osu_id to NULL keeps the table valid and removes exactly that member from every holder set. |
| Players.Move | bot.py:286-289 | Moving an id from its sole holder to an unlinked member keeps the table valid. Afterwards only the new member holds it, provided they have a row. |
| Ranking.BuildRanking | src/cogs/roles.py:22-33 | The 20-request crawl, each request using the previous page's cursor, yields the concatenated ids. It yields nothing when a cursor is null. |
| Ranking.NullCursorEndsCrawl | src/cogs/roles.py:28-33 | Once a crawl fails, every longer crawl fails. |
| Ranking.CrawlIsConcatenation | bot.py:340-347 | The crawl of n pages succeeds exactly when every one of the n responses, the last included, has a cursor. Its ids are then the pages' ids, in order. |
| Ranking.CrawlLength | bot.py:340-347 | When each page has at most 50 ids, n pages give at most 50n ids. |
| Ranking.IndexOf | bot.py:355-358 | The index found is that of the first occurrence. |
| Ranking.CountryRank | bot.py:355-358 | The country rank is the 1-based index of the first occurrence of the osu! id, or 99999 when it is absent. |
| Ranking.SentinelMeansAbsent | src/cogs/roles.py:43-46 | On a leaderboard shorter than 99999, the rank 99999 occurs exactly for an absent id. |
| Ranking.RankInSnapshot | src/cogs/roles.py:22-46 | On a 20-page snapshot, the rank is 99999 exactly when the id is not in the snapshot. |
| RoleSync.ClassifyMeaning | src/cogs/roles.py:54-180 | See "RoleSync.ClassifyMeaning" below. |
| RoleSync.SyncRowsStep | src/cogs/roles.py:35-42 | Handling one more link row extends the fold by exactly that row. |
| RoleSync.RefreshRoles | src/cogs/roles.py:18-184 | The run is the ranking crawl, then the fold over the linked rows. It is None when the crawl fails. |
| RoleSync.SyncRowsKeepsMembers | bot.py:350-354 | The set of guild members never changes. A member without a link row keeps their roles. |
| RoleSync.SyncRowAdds | src/cogs/roles.py:38-42 | See "RoleSync.SyncRowAdds" below. |
| RoleSync.SyncRowsOnlyMembers | src/cogs/roles.py:38-42 | Every new role-change message is about a guild member with a link row. There is at most one per row. |
| RoleSync.SyncRowsOnlyLinkedLookups | src/cogs/roles.py:38-57 | Every osu! id looked up is the reference account or the linked id of a row whose member is in the guild. There are at most two per row. |
| RoleSync.OutageContainment | src/cogs/roles.py:54-63 | When the reference account cannot be found, the Current version sends no "restricted" message and gives nobody the restricted role. |
| RoleSync.SingleTierPreserved | bot.py:230-234 | If every member has at most one tier role, that stays so after the run. |
| RoleSync.FinalRoles | src/cogs/roles.py:35-184 | With distinct link rows, each member's final roles are their roles with the decision for their own row applied. |
| RoleSync.ClassifyStable | src/cogs/roles.py:150-180 | Classifying a member again after applying the decision, with the same data, gives Keep. |
| RoleSync.QuietPrefix | src/cogs/roles.py:150-180 | Re-running any prefix of the rows on the result changes no roles and sends no message. |
| RoleSync.RefreshIdempotent | src/cogs/roles.py:18-184 | A second run on unchanged data changes no roles and sends no message. |
| RoleSync.OriginalRestrictsDuringOutage | bot.py:362-375 | When every lookup fails, the Original version restricts the member. The Current version keeps them. |
| RoleSync.ReturnFromRestriction | bot.py:390-411 | For a restricted member who is ranked again, the Original version announces `pacelas`. The Current version announces `unrestricted` (src/cogs/roles.py:135-148). |
| RoleSync.ScenarioRowA | src/cogs/roles.py:121-133 | A concrete member with no tier role, first in the snapshot, gets LV1 announced as `no_previous_role`, with no lookup. |
| RoleSync.ScenarioRowB | src/cogs/roles.py:121-133 | A concrete member with no tier role, second in the snapshot, gets LV5 announced as `no_previous_role`. |
| RoleSync.ScenarioRowC | src/cogs/roles.py:54-180 | A concrete guild member missing from the snapshot is looked up once, is found ranked, resolves to LVinf and, already holding LVinf, is left alone with no message. |
| RoleSync.SnapshotScenario | src/cogs/roles.py:18-184 | The three rows together: two `no_previous_role` messages and the single lookup of the third account. |
| Linker.BeforeParen | src/cogs/link_user.py:58-59 | `split("(", 1)[0]` is the prefix before the first '(' and is the whole text when it has none. |
| Linker.RemoveTrailingSpace | src/cogs/link_user.py:59 | `removesuffix(" ")` drops at most one trailing space. |
| Linker.UsernameUnchanged | src/cogs/link_user.py:60-62 | The extracted username equals the text exactly when the text has no '(' and does not end in a space. Only then is the activity skipped. |
| Linker.UsernameOfPresenceText | cogs/link_user.py:34-36 | `name (rest)` yields `name`. |
| Linker.LinkStep | bot.py:275-285 | See "Linker.LinkStep" below. |
| Linker.ImmigrantStep | src/cogs/link_user.py:126-143 | See "Linker.ImmigrantStep" below. |
| Linker.NoticeStep | src/cogs/link_user.py:145-165 | See "Linker.NoticeStep" below. |
| Linker.StopSticks | src/cogs/link_user.py:167-170 | Once a member's activity loop has stopped, further activities change nothing. |
| Linker.AbortSticks | bot.py:303-332 | Once a run has aborted, later members change nothing. |
| Linker.LinkStepSoleHolder | bot.py:275-285 | Linking a free account to an unlinked member keeps the links unique. Afterwards the member is the id's only holder. |
| Linker.CurrentLinkOrMove | src/cogs/link_user.py:76-124 | In the Current version, an unlinked member with a row who plays on an LV account ends up its sole holder, with one `refresh_user_rank` call. A member without a row changes nothing. |
| Linker.ActivityStepValid | src/cogs/link_user.py:86-165 | One activity keeps discord_id a key and the osu! links unique. |
| Linker.ActivitiesValid | src/cogs/link_user.py:36-170 | So do a member's activities. |
| Linker.ScanValid | src/cogs/link_user.py:25-170 | So do all members. |
| Linker.RunKeepsLinksUnique | bot.py:258-332 | A whole run, in every version, keeps at most one holder per osu! id. |
| Linker.AppendKeepsDeduplicated | src/cogs/link_user.py:152-165 | Messages other than the notice keep the dedup invariant. |
| Linker.NoticeKeepsDeduplicated | src/cogs/link_user.py:152-165 | A Current notice keeps it: every notice pair is in the seen-list, and the new notices are distinct from each other and from those seen before. |
| Linker.ActivityStepDeduplicated | src/cogs/link_user.py:36-170 | So does one activity. |
| Linker.ActivitiesDeduplicated | src/cogs/link_user.py:36-170 | So does one member's activities. |
| Linker.ScanDeduplicated | src/cogs/link_user.py:25-170 | So do all members. |
| Linker.CurrentNoticesOncePerPair | src/cogs/link_user.py:19-165 | In a Current run, each (playing id, linked id) pair gets at most one notice, and none if it was already in the seen-list. |
| Linker.NoticeRepeatsOnlyInOriginal | bot.py:295-301 | The Original version repeats the notice on every sighting. The Current version sends it once. |
| Linker.SkippedActivitiesChangeNothing | src/cogs/link_user.py:41-71 | An activity that is not osu!, has no text, has an unchanged username or has a failed lookup changes nothing. |
| Linker.OriginalAbortsOnFailedLookup | bot.py:303-332 | In the Original version, a failed lookup or a missing text aborts the whole run with the Failed message. |
| Linker.CurrentSkipsMemberWithoutRow | src/cogs/link_user.py:76-84 | In the Current version, a member without a `players` row changes nothing. |
| Linker.LegacyMoveUnlinksEveryone | cogs/link_user.py:54-58 | See "## Findings". |
| Linker.CurrentMoveKeepsOwner | src/cogs/link_user.py:76-84 | See "## Findings". |
| Linker.LinkUser.constructor | src/cogs/link_user.py:19 | The seen-list starts empty. |
| Linker.LinkUser.HandleActivity | src/cogs/link_user.py:36-170 | One activity, with `already_sent_messages` updated in place to the new seen-list. |
| Linker.LinkUser.HandleMember | src/cogs/link_user.py:36-170 | A member's activity loop, equal to the fold over the activities. |
| Linker.LinkUser.LinkAcc | src/cogs/link_user.py:25-201 | The run over the members, equal to the fold `Run` from the current seen-list. The field ends equal to the new seen-list. |
| Newbest.Fresh | src/cogs/user_newbest.py:91-105 | Each play posted is set after `last_checked`, with its 1-based place in the best list. Places strictly increase. |
| Newbest.FreshComplete | src/cogs/user_newbest.py:91-93 | Every play set after `last_checked` is posted with its place. |
| Newbest.GetUserNewbest | src/cogs/user_newbest.py:85-110 | The posts are the fresh plays. The profile is fetched once when something is posted, else never. The score ids are those of the posts. |
| Newbest.Eligible | src/cogs/user_newbest.py:47-60 | A row is handled exactly when its member is in the guild with a current tier whose value is at most 9. That tier is the first tier role. |
| Newbest.Tag | src/cogs/user_newbest.py:98-104 | Each post carries the member, account, limit, play and place. |
| Newbest.LinkedPlayersLinked | src/cogs/user_newbest.py:44 | Every selected row is linked. |
| Newbest.UserNewbestLoop | src/cogs/user_newbest.py:42-79 | The loop equals the fold over the linked rows. |
| Newbest.PostsOnlyForEligible | src/cogs/user_newbest.py:47-105 | See "Newbest.PostsOnlyForEligible" below. |
| Newbest.RankWithinLimit | src/cogs/user_newbest.py:67-105 | When the API returns at most `limit` plays, every posted place is between 1 and the limit, which is at most 100. |
| Newbest.VisitEffect | src/cogs/user_newbest.py:47-75 | One row: an eligible member is marked processed and gets last_checked = now. Otherwise nothing changes. |
| Newbest.ProcessedStep | src/cogs/user_newbest.py:47-75 | The processed list grows by exactly the eligible rows. |
| Newbest.ProcessedIff | src/cogs/user_newbest.py:47-75 | After the loop, a member is newly processed exactly when they are eligible and have a linked row. |
| Newbest.LastCheckedAdvances | src/cogs/user_newbest.py:73-75 | last_checked becomes now for exactly the processed members. Every other row is unchanged. |
| Top50.CheckPostMeaning | src/cogs/global_top50.py:169-243 | See "Top50.CheckPostMeaning" below. |
| Top50.DisplayedTotal | src/cogs/global_top50.py:273-277 | See "Top50.DisplayedTotal" below. |
| Top50.CheckAllSound | src/cogs/global_top50.py:130-152 | See "Top50.CheckAllSound" below. |
| Top50.FailureSticks | src/cogs/global_top50.py:134-152 | After a failed post, later plays are not checked. |
| Top50.CheckAllComplete | src/cogs/global_top50.py:134-141 | When nothing fails, every recent play after `last_checked` found in its beatmap's top 50 is posted, with the 1-based index of its first occurrence. |
| Top50.GlobalRankAtMostFifty | src/cogs/global_top50.py:136-141 | When the top lists hold at most 50 ids, every posted global rank is between 1 and 50. |
| Top50.KnownIds | src/cogs/global_top50.py:153-154 | `score_ids` holds exactly the non-None ids of the posted plays. |
| Top50.GetGlobalTop50 | src/cogs/global_top50.py:118-159 | The posts and failure are those of the specification. The profile is fetched once when something is posted or has failed, else never. The score ids are the known ids of the posts. |
| Top50.Tag | src/cogs/global_top50.py:91-99 | Each post carries the member, account, limit and found play. |
| Top50.VerdictOf | src/cogs/global_top50.py:64-107 | A row is skipped exactly when its member is not eligible. If not skipped, it fails exactly when its attempt fails. |
| Top50.GlobalTop50Loop | src/cogs/global_top50.py:54-111 | The loop equals the fold over the linked rows. |
| Top50.Isolation | src/cogs/global_top50.py:64-107 | See "Top50.Isolation" below. |
| Top50.GainedStep | src/cogs/global_top50.py:64-107 | One row adds its member to exactly the list of its verdict. |
| Top50.FinishedAdvance | src/cogs/global_top50.py:84-107 | last_checked becomes now for exactly the members that finished. |
| Top50.FailedNotFinished | src/cogs/global_top50.py:100-107 | A member whose attempt failed is not among those finished. |
| Top50.FailedKeepsLastChecked | src/cogs/global_top50.py:100-107 | See "Top50.FailedKeepsLastChecked" below. |
| Mods.ModsIntFromList | src/utils.py:3-7 | The accumulator loop computes the sum over the table, or fails on the first unknown acronym. |
| Mods.FailureSticks | src/utils.py:5-6 | Once a prefix fails, the whole list fails with the same acronym. |
| Mods.ModsSumFailsOnUnknown | src/utils.py:6 | The sum succeeds exactly when every acronym is known. A failure names the first unknown one. |
| Mods.ModsSumAppend | src/utils.py:5-6 | The sum of a concatenation is the sum of the sums. |
| Mods.ModsSumRemove | src/utils.py:5-6 | Removing one acronym subtracts exactly its value. |
| Mods.KnownUnderPermutation | src/utils.py:5-6 | Whether every acronym is known depends only on the multiset of acronyms. |
| Mods.PermutationWithout | src/utils.py:5-6 | Removing the same acronym from two permutations leaves permutations. |
| Mods.ModsSumOrderIndependent | src/utils.py:5-6 | The sum depends only on the multiset of acronyms, so duplicates count every time. |
| Mods.ModsOrderIndependent | src/utils.py:3-7 | `mods_int_from_list` ignores order and counts a repeated acronym each time. |
| Mods.ModsUnknownRaises | src/utils.py:6 | See "Mods.ModsUnknownRaises" below. |
| Mods.NightcoreIncludesDoubleTime | src/config.py:65 | ["NC"] gives 576, which has DT's bit 64 set. Other values: DT+HD=HD+DT=72, HD+HD=16, [] gives 0, and an unknown acronym fails. |
| Schema.Existing | src/db/schema.py:66 | The column map has exactly the listed names. |
| Schema.ExistingLastWins | src/db/schema.py:66 | For a repeated name, the last listed type wins. |
| Schema.ColumnMismatch | src/db/schema.py:68-77 | See "Schema.ColumnMismatch" below. |
| Schema.MismatchesEmptyIff | src/db/schema.py:68-77 | There is at most one message per expected column. There is none exactly when every expected column has its exact type. |
| Schema.ExtraColumnIgnored | src/db/schema.py:68-77 | Columns that are not expected never change the messages. |
| Schema.VerifyPassesIff | src/db/schema.py:47-84 | The check passes exactly when the listing is non-empty and every expected column has its exact type. An empty listing raises the "does not exist" error. |
| Schema.ExtraRowIgnored | src/db/schema.py:66-77 | An extra unexpected column leaves the verdict unchanged. |
| Schema.CreatedTablePasses | src/db/schema.py:15-28 | The table CREATE_PLAYERS_TABLE makes passes the check. |
| Schema.VerifyPlayersTable | src/db/schema.py:47-84 | The loop builds exactly the specification's mismatch list and verdict. |
| Text.Join | src/db/schema.py:79-84 | `join` of no parts is empty, and of one part is that part. |
| Text.RemoveSuffix | src/cogs/commands.py:85 | `removesuffix` drops a present non-empty suffix and otherwise returns the string. |
| Text.TerminatedIsJoin | src/cogs/commands.py:79-85 | Appending `name, ` per added member and removing the last separator is `", ".join`. |
| Text.TrimmedIsJoin | src/cogs/commands.py:79-85 | The same, behind the reply prefix. |
| Commands.AddedIff | src/cogs/commands.py:70-82 | A member is added exactly when they are in the guild and have no row, at most once each. |
| Commands.RowsFor | src/cogs/commands.py:80 | Each added member gets a row with NULL osu_id and last_checked. |
| Commands.Names | src/cogs/commands.py:79 | The reply lists the added members' names in order. |
| Commands.NobodyAddedIff | src/cogs/commands.py:83-87 | The reply is "Nevienu nepievienoja datubāzei." exactly when nobody was added. |
| Commands.BackfillCovers | src/cogs/commands.py:70-82 | Afterwards every guild member has a row. Existing rows are untouched. |
| Commands.BackfillKeepsValid | src/cogs/commands.py:70-82 | Backfilling distinct members keeps discord_id a key and the links unique. |
| Commands.AddedDistinct | src/cogs/commands.py:70-82 | No member is added twice. |
| Commands.UpdateStep | src/cogs/commands.py:72-82 | One member extends the inserted rows and the reply text exactly as the specification does. |
| Commands.UpdateUser | src/cogs/commands.py:67-87 | Outside BOT_CHANNEL_ID nothing happens. Otherwise the table gains exactly the missing members' rows and the reply is the one above. |
| Commands.Window | src/cogs/commands.py:24 | `history(limit=20)` reads the newest 20 messages, or all when there are fewer. |
| Commands.CleanupSound | src/cogs/commands.py:24-36 | Only the bot's own messages are deleted, each one that was removed. The run is refused exactly when some deletion was forbidden. |
| Commands.CleanupComplete | src/cogs/commands.py:24-33 | Unless refused, every removable message of the bot's within the window is deleted. |
| Commands.Delete | src/cogs/commands.py:14-36 | Without permission, or without the channel, nothing is deleted and the matching reply is given. Otherwise the deletions and reply are those of the window's cleanup. |
| Commands.ForbiddenSticks | src/cogs/commands.py:31-33 | A Forbidden deletion ends the loop. |
| Events.Notify | src/cogs/events.py:11-18 | A message reaches the channel when it exists and is dropped silently when it does not. |
| Events.OnMemberJoin | src/cogs/events.py:21-32 | The member has a row afterwards. A known member's table is unchanged. An unknown member gets one inserted row. The message is "atkal pievienojās" exactly for a known member. |
| Events.RowsOf | src/db/db.py:11-17 | The row count is zero exactly when the member has no row. |
| Events.JoinInsertsOnce | src/cogs/events.py:21-30 | A new member ends with exactly one row. A known member's row count is unchanged. |
| Events.JoinKeepsValid | src/cogs/events.py:21-30 | A join keeps discord_id a key and the links unique. |
| Events.RejoinIsReturn | src/cogs/events.py:21-32 | A second join changes no row and is announced as a return. |
| Events.OnMemberRemove | src/cogs/events.py:35-37 | A departure sends exactly two notifications, the text and then the GIF. |
| Events.OnMemberBan | src/cogs/events.py:40-43 | A ban is announced with the ban text. |
| Events.OnMemberUnban | src/cogs/events.py:46-49 | An unban is announced with the unban text. |

### Contracts in detail

#### RoleSync.ClassifyMeaning

The classification of one member:

- Lookups happen exactly for the sentinel rank. They are the member's own
  account, followed by the reference account exactly when the version is
  Current and the member's lookup failed.
- A ranked member is kept exactly when they already hold their rank's tier.
  Otherwise they are swapped to it.
- What each lookup answer forces for the sentinel rank:
  - the member's lookup fails and (in the Original version, or when the
    reference lookup succeeds) the decision is Keep for a member already
    restricted and a swap to `restricted` otherwise;
  - the account is found but unranked: Keep for a member already inactive,
    a swap to `inactive` otherwise;
  - the account is found and ranked: the same decision as for rank 1001,
    that is, the tier LVinf.
- The outage guard: when both lookups fail in the Current version, the member
  is kept. Keep for a member without a tier happens only then.
- The meaning of each event:
  - restricted means the lookup failed (and, in the Current version, the
    reference lookup succeeded);
  - inactive means the account is found but unranked;
  - a swap to a rank tier announces `no_previous_role` exactly when there
    was no tier before;
  - it announces `unrestricted` exactly in the Current version, from
    `restricted`;
  - `pacelas` lowers the tier value;
  - `nokritas` raises it.
- A swap always changes the tier.

#### RoleSync.SyncRowAdds

One link row changes no member set. It adds at most one message, about that
row's member, and only when the member is in the guild. It adds at most two
lookups, each of the reference account or of that row's id.

#### Linker.LinkStep

Linking sets the member's osu_id and queues the "Pievienoja" message. In the
Legacy and Current versions it also calls `refresh_user_rank`. The roles and
the seen-list are unchanged.

#### Linker.ImmigrantStep

A non-LV account adds the immigrant role and its message whenever the role
exists and, in the Legacy and Current versions, the member lacks it. In those
two versions a member who already has the role is left exactly as they were.
The Original version does not check whether the member has the role. A missing role aborts the run exactly in the Original version;
the Legacy and Current versions skip the activity. The table, the seen-list and
the refreshes are unchanged.

#### Linker.NoticeStep

The notice for a member linked to a different id:

- The Original version always sends it.
- The Legacy version records the pair on first sight and sends nothing.
- The Current version sends and records it only on first sight.
- The table, the roles and the refreshes are unchanged.

#### Newbest.PostsOnlyForEligible

Every post belongs to an eligible member and uses that member's tier limit. It
comes from that member's linked row. It is set after the row's last_checked,
which is one hour before now when NULL, and it sits at its place in the best
list.

#### Top50.CheckPostMeaning

A post goes out exactly when all of these hold:

- the channel exists;
- the ruleset is 0;
- there is a beatmap and a beatmapset;
- the profile has statistics;
- the map file is available;
- there is a BPM and a PP value.

A missing channel and a non-standard ruleset give their own errors first.

#### Top50.DisplayedTotal

The total is `legacy_total_score` when it is present and non-zero, and
otherwise `total_score`.

#### Top50.CheckAllSound

Each play posted:

- was set after `last_checked`;
- passed the post checks;
- is at its 1-based first index in its beatmap's top 50.

A failure comes from such a play. Every beatmap looked up belongs to a play
after `last_checked`.

#### Top50.Isolation

Per-member isolation: a member is newly finished exactly when they are
eligible and their attempt did not fail. A member newly fails exactly when they
are eligible and their attempt failed. Either way the loop goes on.

#### Top50.FailedKeepsLastChecked

A failed member's row keeps its last_checked.

#### Mods.ModsUnknownRaises

`mods_int_from_list` succeeds exactly when every acronym is in MODS_DICT. On
failure, the acronym it names is not in MODS_DICT (the KeyError).

#### Schema.ColumnMismatch

The message is:

- "missing column: …" for an absent column;
- "column … has type …, expected …" for a different type;
- nothing when the type is exactly equal.

## Left out

- I/O in general:
  - files;
  - the token;
  - `tasks.loop` scheduling, `time.sleep` and `asyncio` concurrency;
  - logger output;
  - the `pervert`, `check` and `desa` chat commands.

  They are parameters or have no effect on the state.
- The osu! HTTP client, token refresh and SQL are not part of this model. Their
  answers are function parameters. The table is a value:
  - the UPDATE/INSERT statements are the pure updates in `Players`;
  - `src/db/db.py` `get_user` is the existence test;
  - `create_user` is the insert.
- API and network exceptions are not modelled. The exceptions are:
  - a failed user lookup;
  - the failing checks of `post_global_top50`;
  - a null leaderboard cursor.
- A run happens against one guild. Role lists keep insertion order, so `change_role` appends the new role at the end.
- The clock is one `now` value per run. The source calls `datetime.now()` again for each member.
- `last_checked` is an integer timestamp. The parse of the stored value (the `parser.parse` call) is not part of this model.
- `send_rolechange_msg` texts: a message is the event, the member and the new tier. The Latvian wording is not reproduced. Neither are the "Roles refreshed." reply and the error text of bot.py:416-419.
- Linker message texts are recorded the same way, as the kind of message and its ids.
- Config.ParseInt: models Python's `int()` only on an optional sign followed by decimal digits. The leading and trailing whitespace and the `_` separators `int()` also accepts are not modelled.
- The HTTP POST to the registration service in src/cogs/link_user.py:172-196 is not part of this model. It sends a request and changes no state the model holds.
- Newbest: posting a new top play is modelled as never failing. The embed, the PP and star calculation, and the beatmap download (`post_user_newbest`) are foreign libraries and file I/O.
- Top50: the PP and star calculation, embed text and float rounding are left out. The `.osu` file is modelled as a yes/no availability.
- `refresh_user_rank` is recorded as a call in the linker's log. Its effect is the role sync for one member, and that is not repeated there.
- `get_role_with_rank`, `change_role` and `send_rolechange_msg` are imported from `utils`, which does not define them. They are modelled from bot.py:44-65 and bot.py:230-248.
- The Original and Legacy linkers do not check that the bot channel exists. The model assumes it does. Only the Current linker's check (src/cogs/link_user.py:29-34) is modelled.
- The membership listeners are modelled as pure functions returning the new table and the messages. They have no loop or state of their own.
- The daily challenge cog, src/app.py, the root `config.py`, `cogs/commands.py` and the maintenance commands of bot.py are not part of this model.

## Findings

| source | as written | input that shows it | evidently intended | confidence | as-written member | corrected member |
|---|---|---|---|---|---|---|
| cogs/link_user.py:54-58 | In the move branch, when the account is held by another member, the old holder's osu_id is set to NULL. The update for the new member is a no-op if that member has no `players` row, and no check for a row is made. | A table with only member 1 holding osu! id 5. Member 2, who has no row, shows account 5 (LV) in their presence. Afterwards nobody holds id 5, and the message says it was moved. | Skip members without a row, as src/cogs/link_user.py:76-84 does, so that the owner keeps the link. | not executed | Linker.LegacyMoveUnlinksEveryone | Linker.CurrentMoveKeepsOwner |
