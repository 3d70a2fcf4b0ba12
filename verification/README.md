# Zealot moderation core in Dafny

Zealot is a Discord moderation bot. Underneath its Discord plumbing sit five
pieces of sequential logic, and this project models them as pure functions
over in-memory stores and proves properties about them:

- **The case ledger** (`ModerationLogService`), in `Ledger.dfy`. Every
  moderation action is appended as a `ModeratorLogs` row. The row gets a
  per-guild case number: one past the guild's highest, or 1 for a guild with
  no rows. The ledger can be queried with optional filters, ordered newest
  case first and cut into pages. A single case can be looked up by guild and
  case number. After an append, the action's embed is posted to the guild's
  audit channel when one is configured.
- **Scheduled tasks** (`TaskSchedulerService`, `CreateTask`), in
  `Scheduler.dfy`. Tasks can be added and removed. One iteration of the
  polling loop is the function `Tick`: it runs every due task's handler,
  retires each one whose handler returned and keeps each one whose handler
  threw. The loop itself is the fold `Run` over successive iterations.
- **The permission gate** (`PermissionCheck.ExecuteCheckAsync`), in
  `Permission.dfy`. The module has the gate as written and the gate its doc
  comments describe.
- **Guild settings** (`GuildSettingService`) as a map from guild to row, in
  `Settings.dfy`. The `config` and `prefix` commands built on it are in
  `ConfigCommand.dfy` and `PrefixCommand.dfy`.
- **Command logic**:
  - prefix resolution for text commands, in `PrefixResolver.dfy`;
  - the attachment check, in `Evidence.dfy`;
  - the `kick` command, in `KickCommand.dfy`;
  - the `purge` command, in `PurgeCommand.dfy`;
  - the `viewlog` command and its duration formatter, in `LogsView.dfy`.

`Common.dfy` holds the shared vocabulary. It defines optional values, ids
and instants, and the observable effects of a command on the platform
(replies, DMs, audit posts, ledger records, removals, deletions), recorded in
the order they happen. It also defines the .NET string and number helpers
the code leans on: `IsNullOrWhiteSpace`, `StartsWith` (as an ordinal
comparison), `string.Length` (which counts UTF-16 code units), unchecked
32-bit `int` arithmetic and decimal rendering of integers.

Instants are whole UTC seconds (`int`). Durations are whole seconds (`int`),
negative ones included, because a `TimeSpan` argument may be negative. Every
Discord id is a `nat`.

Where the code leaves a case open, the model follows what the code does:

- A page number below 1 is not rejected. `Skip` and `Take` read negative
  counts as zero, as LINQ does. The page offset `(page - 1) * pageSize` is
  computed in 32-bit `int` arithmetic and wraps around.
- Adding a task has no duplicate check, so it never replaces an existing one
  for the same kind, guild and user.

Where the documentation and the code disagree, the model follows the code.
The prefix resolver's doc comment promises guild-specific prefixes, but the
text-command prefixes are the fixed list `!`, `~`, and the guild's stored
prefix is not consulted.

Where no implementation exists, the model follows the interface's doc
comment. That covers lookup by case number, `IsValidAttachment`, the channel
and muted-role accessors, and `RemoveTaskAsync`.

## Model

| member | source | states |
|---|---|---|
| Settings.GetPrefix | Services/GuildSettingService.cs:20-29 | A guild without a settings row reads the default prefix "!"; otherwise the stored prefix is read. |
| Settings.SetPrefix | Services/GuildSettingService.cs:32-59 | The table gains exactly guild g's key. A new row holds only the guild and the prefix, with no channel or role. An existing row keeps its channel and role. Every other guild's row is unchanged. |
| Settings.PrefixRoundTrip | Services/GuildSettingService.cs:20-58 | After setting g's prefix to p, g reads p. Every other guild reads the prefix it read before. Every guild reads the same channel and role as before. |
| Settings.SetPrefixIdempotent | Services/GuildSettingService.cs:49-55 | Writing the same prefix a second time changes nothing. |
| Settings.GetLogChannel | Services/Interfaces/IGuildSettingsService.cs:22-27 | No audit channel is read for a guild without a row; otherwise the stored one is read. |
| Settings.SetLogChannel | Services/Interfaces/IGuildSettingsService.cs:29-35 | Upsert of the audit channel. The guild's prefix and muted role read as before, and other guilds' rows are unchanged. |
| Settings.GetMutedRole | Services/Interfaces/IGuildSettingsService.cs:44-49 | No muted role before any set; otherwise the stored one. |
| Settings.SetMutedRole | Services/Interfaces/IGuildSettingsService.cs:37-42 | Upsert of the muted role. The guild's prefix and audit channel read as before, and other guilds' rows are unchanged. |
| Settings.ChannelAndRoleRoundTrip | Services/Interfaces/IGuildSettingsService.cs:22-49 | Setting then reading returns the channel or role that was set. Prefixes are untouched, and other guilds read as before. |
| Ledger.LastCase | Services/ModerationLogService.cs:51-55 | The result bounds every case number of the guild. It is either 0 or a case number the guild actually has. |
| Ledger.Append | Services/ModerationLogService.cs:37-62 | Exactly one row is added after the existing rows, which stay unchanged. It carries the request's guild, subject, moderator, action, reason, duration, context and expiry, and it is created now. Its number exceeds every number of its guild and is 1 or one past an existing number. A guild with no rows gets 1. Every other guild's highest case and row count are unchanged. |
| Ledger.NotifyLogChannel | Services/ModerationLogService.cs:130-146 | One post to the guild's audit channel when one is configured, and nothing when none is. |
| Ledger.LogModeratorAction | Services/ModerationLogService.cs:25-69 | The ledger is the appended one. The first effect records the new case. Without an embed, or without an audit channel, nothing else happens. Otherwise the embed goes to the audit channel. |
| Ledger.AppendNumbered | Services/ModerationLogService.cs:50-62 | An append keeps every guild numbered 1, 2, 3, … in insertion order. |
| Ledger.NumberedLastCase | Services/ModerationLogService.cs:50-58 | In a numbered ledger a guild's highest case number is its row count. |
| Ledger.NumberedIncreasing | Services/ModerationLogService.cs:50-62 | In a numbered ledger, a later row of a guild has a strictly larger case number than an earlier one. |
| Ledger.NumberedHasCase | Services/ModerationLogService.cs:50-62 | In a numbered ledger a guild has a row numbered x exactly when 1 <= x <= N, where N is its row count. |
| Ledger.NumberedCaseSet | Services/ModerationLogService.cs:50-62 | In a numbered ledger the set of a guild's case numbers is exactly {1..N}. |
| Ledger.NumberedDistinct | Services/ModerationLogService.cs:50-62 | In a numbered ledger no two rows of one guild share a case number. |
| Ledger.ReplayNumbered | Services/ModerationLogService.cs:50-62 | Any sequence of appends to an empty ledger leaves it numbered: each row's case number is one more than the number of earlier rows of its guild. |
| Ledger.SequentialAppendsContiguous | Services/ModerationLogService.cs:50-62 | After any sequence of appends to an empty ledger, every guild's case numbers are exactly {1..N}, where N is its row count, and no two rows of a guild share a number. |
| Ledger.GetByCase | Services/Interfaces/IModerationLogService.cs:58-64 | A returned row is in the ledger and has the requested guild and case number. Nothing is returned exactly when no row has both. |
| Ledger.GetByCaseUnique | Services/Interfaces/IModerationLogService.cs:58-64 | In a numbered ledger the lookup returns the one row with that guild and number. |
| Ledger.LookupAfterAppend | Services/Interfaces/IModerationLogService.cs:58-64 | A freshly appended row is found by its guild and new case number. |
| Ledger.Select | Services/ModerationLogService.cs:85-104 | Exactly the ledger rows that pass every given filter. A user filter never matches a row without a subject, and both creation bounds are inclusive. |
| Ledger.Matches | Services/ModerationLogService.cs:85-104 | With no filters every row matches. A creation window whose upper bound precedes its lower bound matches no row. |
| Ledger.SortDesc | Services/ModerationLogService.cs:107 | The result is a permutation of the input in non-increasing case-number order. |
| Ledger.SortDescStrict | Services/ModerationLogService.cs:107 | Rows with pairwise distinct case numbers sort into strictly decreasing order. |
| Ledger.Skipped | Services/ModerationLogService.cs:108-109 | The number of rows `Skip` passes over is never negative and never above `int.MaxValue`, and page 1 skips none. |
| Ledger.Window | Services/ModerationLogService.cs:108-109 | `Skip(skip).Take(take)`: the result has min(take, items left after skipping) items, each taken from its offset position, and negative counts read as zero. |
| Ledger.SelectCounts | Services/ModerationLogService.cs:85-104 | The selection holds each matching row as many times as the ledger does, and no other row. |
| Ledger.Ranked | Services/ModerationLogService.cs:85-107 | The ranked matches are in non-increasing case-number order. |
| Ledger.RankedPermutation | Services/ModerationLogService.cs:85-107 | The ranked list is a permutation of the matching ledger rows: each as many times as in the ledger, non-matching rows never. |
| Ledger.RankedMembers | Services/ModerationLogService.cs:85-107 | The ranked list holds exactly the ledger rows that match. |
| Ledger.RankedComplete | Services/ModerationLogService.cs:85-107 | Every matching ledger row is ranked. |
| Ledger.SkippedIsOffset | Services/ModerationLogService.cs:108-109 | While `(page - 1) * pageSize` fits in an `int`, that many rows are skipped, clamped at zero. For a positive page size nothing is skipped exactly when `page <= 1`. |
| Ledger.OverflowingPageRepeatsFirst | Services/ModerationLogService.cs:108-109 | The offset wraps at 2^32: page 1073741825 of size 4 of any list is its page 1. |
| Ledger.OverflowingPageShowsFirstPage | Services/ModerationLogService.cs:108-109 | So the query's page 1073741825 of size 4 shows the same rows as page 1. |
| Ledger.QueryEntries | Services/ModerationLogService.cs:106-109 | A page holds at most pageSize rows. They are exactly the ranked matches from the skipped count onward (the wrapped `(page - 1) * pageSize`, clamped at zero), as many as remain. |
| Ledger.QueryEntriesMatch | Services/ModerationLogService.cs:85-104 | Every row of a page is a ledger row that passes every given filter. |
| Ledger.QueryEntriesOrdered | Services/ModerationLogService.cs:107 | A page lists case numbers in non-increasing order. |
| Ledger.WindowOrdered | Services/ModerationLogService.cs:107-109 | Cutting a page out of an ordered list keeps it ordered. |
| Ledger.PageCoverage | Services/ModerationLogService.cs:108-109 | For 0 < pageSize <= `int.MaxValue`, a page number `i / pageSize + 1` that is itself an `int`, and any rank i up to `int.MaxValue`, the i-th ranked match (from 0) is item `i % pageSize` of page `i / pageSize + 1`. So the pages list every match where its rank puts it. |
| Ledger.PageOfCoverage | Services/ModerationLogService.cs:108-109 | For a positive `int` page size, a page number `i / n + 1` that is an `int`, and an index up to `int.MaxValue`, item i of a list is item `i % n` of page `i / n + 1`. |
| Ledger.Query | Services/ModerationLogService.cs:71-122 | One summary per row of the page, in rank order from the skipped count on, each projecting that row's user, moderator, action type, reason, creation time and case number. So at most pageSize summaries, each agreeing with the user, moderator, action-type, case-number and date filters, in non-increasing case-number order. |
| Ledger.AbsentFiltersRestrictNothing | Services/ModerationLogService.cs:85-104 | With no filters every row matches. A blank action type filters nothing. |
| Ledger.FiltersConjoin | Services/Interfaces/IModerationLogService.cs:34-46 | A row matches the combined filters exactly when it passes each given filter on its own. |
| Ledger.NumberedGuildIncreasing | Services/ModerationLogService.cs:50-62 | In a numbered ledger each guild's rows are in increasing case-number order. |
| Ledger.SelectOneGuildIncreasing | Services/ModerationLogService.cs:85-86 | Filtering to one guild keeps that guild's rows in increasing case-number order. |
| Ledger.OneGuildRankedStrict | Services/ModerationLogService.cs:85-107 | Filtered to one guild of a numbered ledger, the ranked matches have strictly decreasing case numbers. |
| Ledger.WindowStrict | Services/ModerationLogService.cs:107-109 | A page of a strictly decreasing list is strictly decreasing. |
| Ledger.OneGuildStrictlyDecreasing | Services/ModerationLogService.cs:85-109 | A query filtered to one guild of a numbered ledger lists strictly decreasing case numbers. |
| Evidence.AttachmentError | Services/Interfaces/IModerationLogService.cs:66-74 | There is no error exactly when the attachment is an image ("image/" media type) of at most 512,000 bytes. Otherwise the error is the bad-image text. |
| Evidence.CheckImage | Commands/KickCommand.cs:35-36 | No attachment passes. A missing media type throws. Otherwise the attachment passes exactly when the validator reports no error. |
| Evidence.ValidationExamples | Commands/KickCommand.cs:35-36 | 512,000 bytes is accepted and 512,001 is rejected. A non-image is rejected whatever its size. |
| Scheduler.AddTask | Services/CreateTask.cs:15-26 | Exactly one row is appended after the unchanged existing rows. Its kind, guild, user and time are the arguments and its channel is unset. A valid store stays valid and the new id is fresh. |
| Scheduler.AddTwiceKeepsBoth | Services/CreateTask.cs:15-26 | There is no duplicate check: adding the same (kind, guild, user) twice leaves two more rows for it. |
| Scheduler.RemoveTasks | Services/Interfaces/ITaskSchedulerService.cs:20-27 | No row of the given kind, guild and user remains, and every other row remains. Nothing new appears and validity is kept. |
| Scheduler.RemoveIdempotent | Services/Interfaces/ITaskSchedulerService.cs:20-27 | A remove that matches nothing changes nothing, so removing twice is removing once. |
| Scheduler.HandleTask | Services/TaskSchedulerService.cs:56-65 | The test task DMs its user the fixed text. It throws when the row has no user or the platform call fails. A kind without a case does nothing and returns. |
| Scheduler.Due | Services/TaskSchedulerService.cs:25-29 | Exactly the rows with `executeAt <= now`. |
| Scheduler.TestTaskDms | Services/TaskSchedulerService.cs:58-62 | The DMs a list of rows sends: at most one per row, one for every test task that names a user, and none from any other row. |
| Scheduler.RunDue | Services/TaskSchedulerService.cs:31-42 | A due row is marked exactly when its handler returns. The effects are exactly the DMs of the marked test tasks, one each, in the order the rows ran. |
| Scheduler.Tick | Services/TaskSchedulerService.cs:23-49 | A failed fetch changes nothing and does nothing. A failed save keeps every row. Otherwise a row survives exactly when it is not both due and successfully handled. Rows never appear, ids keep their order, and every effect comes from a due, successful test task. Unless the fetch fails, every due test task whose handler returns has its DM among the effects, even when the save then fails. |
| Scheduler.TickPerRow | Services/TaskSchedulerService.cs:25-44 | A row not yet due is kept. A due row is removed exactly when its handler returns, so a throwing handler keeps its row. A due UnMute row is retired, and a due test task without a user is kept. |
| Scheduler.Run | Services/TaskSchedulerService.cs:19-53 | Over any number of iterations no row appears, the id counter is kept and validity is preserved. |
| Scheduler.RunConcat | Services/TaskSchedulerService.cs:19-53 | Running iterations a then b equals running a + b. |
| Scheduler.RunStep | Services/TaskSchedulerService.cs:19-53 | The store after k + 1 iterations is one Tick after the store after k. |
| Scheduler.RunShrinks | Services/TaskSchedulerService.cs:19-53 | A later store holds only rows of an earlier one. |
| Scheduler.RetiredStaysRetired | Services/TaskSchedulerService.cs:31-44 | A row retired by iteration k is absent from every later store, so its handler never runs again. |
| Scheduler.RemovedNeverRuns | Services/Interfaces/ITaskSchedulerService.cs:20-27 | After a remove, no later store of the loop holds a row of that kind, guild and user. |
| Permission.Check | Attributes/PermissionCheckAttribute.cs:85-150 | For developer-only commands, a caller is allowed exactly when on the developer list, and anyone else gets the developer-only denial. For other commands, no member is a fault, administrators are allowed and everyone else gets the no-permission denial. |
| Permission.VerdictIgnoresKeyAndBypass | Attributes/PermissionCheckAttribute.cs:85-150 | As written the verdict reads only `developerOnly`: the permission key and the bypass flag never change it. |
| Permission.DeveloperOnlyOverridesAdministrator | Attributes/PermissionCheckAttribute.cs:100-130 | An administrator who is not a developer is denied a developer-only command. |
| Permission.CheckDocumented | Attributes/PermissionCheckAttribute.cs:25-41 | The documented gate. Developer-only and missing-member cases are as written, and administrators pass. Otherwise a non-empty allow-list admits exactly its users and roles, and an empty one admits everyone exactly when `userBypass` is set. |
| Permission.DocumentedExtendsWritten | Attributes/PermissionCheckAttribute.cs:31-35 | The documented gate allows whatever the written one allows. With no allow-list and no bypass the two agree. |
| Permission.BypassIgnoredAsWritten | Attributes/PermissionCheckAttribute.cs:31-35 | `ping_command` carries `userBypass: true`, yet an ordinary member with no allow-list configured is denied as written. The documented gate allows them. |
| PrefixResolver.FirstMatch | Services/CustomPrefixResolver.cs:33-41 | -1 exactly when no listed prefix starts the content. Otherwise the length of the first one that does. |
| PrefixResolver.ResolvePrefix | Services/CustomPrefixResolver.cs:21-42 | Blank content or a missing channel gives -1. Any other result n has the content's first n characters equal to a listed prefix. -1 otherwise means no prefix starts the content. |
| PrefixResolver.ResolveByFirstCharacter | Services/CustomPrefixResolver.cs:31-41 | Content starting with "!" or "~" resolves to 1, and content starting with anything else resolves to -1. |
| KickCommand.KickDm | Commands/KickCommand.cs:52-64 | At most one DM is sent, and none exactly when sending fails. |
| KickCommand.Eligible | Commands/KickCommand.cs:21-24 | The invoker can never kick themself, nor anyone an administrator or a bot. Any other member can be kicked. |
| KickCommand.Kick | Commands/KickCommand.cs:21-105 | An ineligible target (administrator, bot, self) gets only the refusal and leaves the ledger as it was. A rejected image gets only the bad-image reply, and a missing media type faults. Otherwise a kick row is appended and recorded before the reply and the removal, which come last. |
| KickCommand.RemovedIffRecorded | Commands/KickCommand.cs:22-105 | The member is removed exactly when a "kick" row naming them, by the invoker, is appended. Both happen exactly when the target is eligible and the image passes. |
| PurgeCommand.Matching | Commands/PurgeComand.cs:46-51 | Exactly the fetched messages by the given author, within the given minutes and under 14 days old. |
| PurgeCommand.AdjustedAmount | Commands/PurgeComand.cs:19-30 | The amount never goes down, and it passes the range check exactly when the typed amount is 0..99 for a text command and 1..100 for a slash command. |
| PurgeCommand.Eligible | Commands/PurgeComand.cs:46-51 | An eligible message is under 14 days old. With no author and no time filter that is the only condition, and a time filter of 14 days or more adds nothing to the author filter and the age limit. |
| PurgeCommand.MatchingKeepsOrder | Commands/PurgeComand.cs:46-53 | The selection keeps fetch order. |
| PurgeCommand.Select | Commands/PurgeComand.cs:46-53 | The leading eligible fetched messages, in fetch order: min(amount, number eligible) of them for a positive amount, and none otherwise. |
| PurgeCommand.SelectTakesAllWhenShort | Commands/PurgeComand.cs:46-53 | When fewer than `amount` are selected, every eligible message is selected. |
| PurgeCommand.ReportedCountAsWritten | Commands/PurgeComand.cs:67-73 | As written: the selection size, less one for a text command whatever was selected. |
| PurgeCommand.ReportedCount | Commands/PurgeComand.cs:67-73 | The corrected count: selected messages other than the command message. It never exceeds the selection and equals it for a slash command. |
| PurgeCommand.ReportedCountAbsent | Commands/PurgeComand.cs:67-73 | When the command message is not selected, every selected message is counted. |
| PurgeCommand.ReportedCountPresent | Commands/PurgeComand.cs:67-73 | With distinct ids and the command message selected at any position, the corrected count is the selection size less one. |
| PurgeCommand.WrittenCountRightIffCommandSelected | Commands/PurgeComand.cs:67-73 | For a text command with distinct ids, the written count is right exactly when the command message is selected, and one short otherwise. |
| PurgeCommand.WrittenCountRightWhenCommandSelected | Commands/PurgeComand.cs:67-73 | The written count ("selected − 1") is right when the command message is the first selected and the ids are distinct. |
| PurgeCommand.WrittenCountShortWithAuthorFilter | Commands/PurgeComand.cs:67-73 | `!purge 2` filtered to another author deletes two messages. As written it reports 1; the corrected count is 2. |
| PurgeCommand.Purge | Commands/PurgeComand.cs:18-94 | An adjusted amount outside 1..100 gets only the error reply. No match gets only the no-match reply. Otherwise a purge row is appended and recorded, then the selected messages are deleted from the target channel, the count is reported and the response is deleted. |
| PurgeCommand.PurgeDeletesOnlyEligible | Commands/PurgeComand.cs:20-89 | The ledger changes exactly when messages are deleted. A deletion happens only for an in-range amount and covers 1 to `amount` messages, each an eligible message among the channel's latest hundred. |
| PurgeCommand.TextPurgeOfHundredRejected | Commands/PurgeComand.cs:20-30 | A text-command purge of 100 is rejected, because the adjusted amount is 101. |
| LogsView.FormatDays | Commands/LogsView.cs:57-58 | A duration of d >= 1 days, h < 24 hours and any remainder shows as "<d>d <h>h". |
| LogsView.FormatHours | Commands/LogsView.cs:59-60 | Under a day, h >= 1 hours and m < 60 minutes show as "<h>h <m>m". |
| LogsView.FormatMinutes | Commands/LogsView.cs:61-63 | Under an hour, m >= 1 minutes and s seconds show as "<m>m <s>s". Under a minute the duration shows as "<s>s". |
| LogsView.SecondsPart | Commands/LogsView.cs:63 | `TimeSpan.Seconds`: strictly between -60 and 60, the remainder modulo 60 for a non-negative span, and for a negative one a non-positive value congruent to it modulo 60. |
| LogsView.FormatDuration | Commands/LogsView.cs:55-64 | The last unit shown ends the text: "h" from a day up, "m" from an hour up, "s" below. Two fields separated by a space appear exactly from a minute up. A non-negative span starts with a digit. |
| LogsView.FormatNegative | Commands/LogsView.cs:55-63 | A negative span falls through to the last branch: "-<s>s" with s = |span| mod 60, or "0s" for a whole number of minutes. |
| LogsView.NegativeNinetySeconds | Commands/LogsView.cs:55-63 | Minus ninety seconds shows as "-30s". |
| LogsView.FieldsPresence | Commands/LogsView.cs:41-50 | The User field appears exactly when the row has a subject, Duration exactly when a duration is stored, and Reason exactly when the reason is not blank. Moderator always appears. |
| LogsView.ViewLog | Commands/LogsView.cs:17-52 | The "doesn't exist" reply comes exactly when the guild has no such case. Otherwise the shown embed renders that guild's row with that number. |
| ConfigCommand.DisplayInjective | Commands/ConfigCommand.cs:48-54 | The shown channel and role texts are unambiguous: equal texts mean equal settings. |
| ConfigCommand.Config | Commands/ConfigCommand.cs:18-57 | "Updated" shows exactly when an argument was given, and with none the store is unchanged. A given channel or role is stored, and an absent one keeps its stored value. The prefix and other guilds are untouched. The texts show the values now stored. |
| ConfigCommand.ConfigShowsWhatItStored | Commands/ConfigCommand.cs:21-57 | Running the command again without arguments stores nothing and shows the same values. |
| PrefixCommand.PrefixAsWritten | Commands/PrefixCommand.cs:17-67 | As written: with no argument the current prefix is read and nothing is written. A given prefix is stored verbatim. An over-long one (more than 3 UTF-16 code units) draws the warning and is still stored, with two replies. |
| PrefixCommand.Prefix | Commands/PrefixCommand.cs:17-67 | Corrected: an over-long prefix (more than 3 UTF-16 code units) gets only the warning and nothing is stored. Otherwise the prefix is read or written. Exactly one reply, and other guilds' prefixes are untouched. |
| PrefixCommand.TooLong | Commands/PrefixCommand.cs:17 | No argument is never too long. More than 3 characters always are, and one character never is. For a prefix inside the Basic Multilingual Plane it is too long exactly when it has more than 3 characters. |
| PrefixCommand.AgreeUnlessTooLong | Commands/PrefixCommand.cs:17-31 | The two versions agree except on over-long prefixes: the corrected one refuses them and the written one stores them. |
| PrefixCommand.OverlongPrefixStoredAsWritten | Commands/PrefixCommand.cs:17-67 | "abcd" draws the warning and becomes the prefix as written. The corrected handler leaves the prefix as it was. |
| PrefixCommand.TwoEmojiAreTooLong | Commands/PrefixCommand.cs:17-31 | Two emoji above the Basic Multilingual Plane are 4 code units: the written handler warns and stores them with two replies, and the corrected one leaves the store alone. |
| Common.Utf16Length | Commands/PrefixCommand.cs:17 | `string.Length` lies between the character count and twice it. |
| Common.Utf16LengthIsLength | Commands/PrefixCommand.cs:17 | `string.Length` equals the character count exactly when no character lies above the Basic Multilingual Plane. |
| Common.Wrap32 | Services/ModerationLogService.cs:108 | The wrapped value lies in the `int` range and equals the exact value when that fits. |
| Common.Wrap32Congruent | Services/ModerationLogService.cs:108 | The wrapped value differs from the exact one by a multiple of 2^32. |
| Common.IntToString | Commands/LogsView.cs:63 | At least one character, starting with a minus sign exactly for a negative number. |
| Common.IntToStringInjective | Commands/LogsView.cs:63 | Different integers render differently. |
| PrefixCommand.ShowAfterSet | Commands/PrefixCommand.cs:34-67 | After setting an acceptable prefix, the command with no argument reports it. |

## Left out

- Discord I/O is not modelled. Embeds, colours, thumbnails, footers, timestamps, ephemeral flags, user and channel fetches and logging appear only as the abstract effect records in `Common.Effect`, and embed contents are not modelled beyond the audit post and the `viewlog` fields.
- The race in case numbering is not modelled. `LogModeratorActionAsync` reads the guild's highest case and inserts separately, so a concurrent writer could duplicate a number. A sequential model cannot exhibit that, so contiguity is proved for sequential appends only.
- C# `int` overflow of case numbers and purge amounts is not modelled, because numbers are unbounded (the page offset's wrap is modelled). For `amount++` the outcome is the same either way, since `int.MaxValue` is already out of range.
- Snowflakes are `ulong` in the source; the model uses unbounded `nat` ids.
- `Scheduler.Tick`: a failed save is modelled as leaving the store as it was. The EF change tracker would keep the pending deletions and apply them at the next successful save; that is not modelled.
- The polling loop's async mechanics are not modelled: the cancellation token, the 10-second `Task.Delay` between iterations and the console logging of errors. The loop is the fold `Run` over per-iteration inputs. The clock, handler failures and store failures are inputs, so the spacing of iterations is not constrained.
- Time zones, `ToUniversalTime` and the `double` fields (`TotalMinutes`, `TotalDays`) are not modelled. Every instant and duration is whole seconds, so sub-second parts of a `TimeSpan` are not represented.
- Evidence.CheckImage: tests the media type with an ordinal prefix comparison. The source's `StartsWith(string)` compares with the current culture, which under ICU skips ignorable characters such as U+00AD, so a media type like "im\u00ADage/png" may pass there and is rejected here. Culture-aware comparison is not modelled.
- Ledger.PageCoverage: proved for ranks up to `int.MaxValue`. Beyond that the source's page offset wraps, so the pages no longer tile the ranking.
- Query ties among equal case numbers are not modelled as the database orders them. The model's sort is stable; SQL promises no order among ties, and ties happen only across guilds.
- Page numbers below 1 and negative page sizes are not validated, and the model reads them as LINQ does. PostgreSQL `OFFSET`/`LIMIT` may reject negative values instead.
- The `viewlog` image branch is not modelled, because it reads an `Image` field the `ModeratorLogs` model does not have.
- The `kick` command's evidence image is not logged. It passes `image:` to `LogModeratorActionAsync`, whose implementation has no such parameter.
- The `purge` command's `reason` argument is accepted but never logged, so the model has no such input.
- `PurgeCommand.Purge` reports the corrected count, not the count the code computes; see Findings.
- The kick DM's and confirmation's embed layout is not modelled; the DM effect carries only the reason line.
- A second `RespondAsync` on one interaction is not modelled. In the prefix command as written that may fail on the platform side.
- The other commands are not part of this model: ban, mute, unmute, unban, logs, set-mod-log, test-scheduler and ping. They orchestrate Discord calls.
- `Program.cs` is not part of this model: startup, dependency injection, logging setup and the status cycle.
- `BotDbContext` and EF Core are not part of this model. The context declares no `ScheduledTasks` set although the scheduler uses one.
- The `TaskType` enum is not shown in the source. Task kinds are the two it names, `TestTask` and `UnMute`.

## Findings

| source | as written | input that shows it | evidently intended | confidence | as-written member | corrected member |
|---|---|---|---|---|---|---|
| Attributes/PermissionCheckAttribute.cs:85-149 | The permission key and `userBypass` are never read. Every non-developer command admits administrators only. | `ping_command` (`userBypass: true`) invoked by a non-administrator member, with no allow-list configured, is denied. | Per the doc comments at lines 25-35, an empty allow-list with `userBypass` admits everyone, and a configured allow-list admits its users and roles. | medium, not executed | Permission.Check, Permission.BypassIgnoredAsWritten | Permission.CheckDocumented |
| Commands/PrefixCommand.cs:17-31 | The length warning does not return. | `prefix abcd` replies with the warning and then stores "abcd" and confirms it. | An over-long prefix is refused and nothing is stored. | high, not executed | PrefixCommand.PrefixAsWritten, PrefixCommand.OverlongPrefixStoredAsWritten | PrefixCommand.Prefix |
| Commands/PurgeComand.cs:67-73 | A text command always subtracts one from the selected count, assuming the command message was selected. | `!purge 2` with a user filter for another author, in a channel holding the command and two fresh messages by that author. Both are deleted and "Deleted 1" is reported. | Report the deleted messages other than the command message, which is 2 here. | high, not executed | PurgeCommand.ReportedCountAsWritten, PurgeCommand.WrittenCountShortWithAuthorFilter | PurgeCommand.ReportedCount |
