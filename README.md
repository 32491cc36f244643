# Telegram-Panel: verified model of the kick API, risk check, rejoin helper, bot-admin presets and repository queries

This project models, in Dafny, the decision logic of the Telegram-Panel
administration panel:

- **The external kick endpoint** (`/api/kick`). It picks the configured
  external API definition by key, validates the request and expands the
  definition's scope into groups of (bot, chats). It then makes one ban call
  per group and reports one item per chat, with summary counts.
- **The account risk check.** An account counts as risky for sensitive
  operations until 24 hours have passed since its last login. The batch
  check splits accounts into a risky list and a safe list and builds a
  summary sentence.
- **The rejoin helper.** It recognises Telegram's "channel not found" error
  text. It lets an account join a chat through an invite link exported by
  the bot, and leaves a failure line on the caller's list when that fails.
- **The bot-admin presets.** These are named lists of user ids kept in the
  JSON settings file. The model covers reading with normalisation, saving
  with validation and an upsert, and deleting.
- **The repository queries** over stored channels and bot-channel
  categories. The model covers the filters, the ordering and the paging
  clamps.

How the model is built:

- **Remote calls become parameters.** Telegram and the bot store are
  function parameters: `allBots`, `chatsOf`, `ban`, `exportLink` and
  `joinChat`.
- **Cancellation is a parameter** from the number of a cancellation check
  to whether the token was cancelled at that check.
- **The clock is a parameter**, `now`, in whole minutes.
- **The hour formatter `:F1` is an abstract parameter** `fmt` from elapsed
  minutes to text.
- **Stored tables are sequences in store order.**

Modules:

- `KickApi`, `ExternalApiModels`
- `AccountRisk`, `AccountExtensions`
- `BotChannelJoinRetryHelper`
- `BotAdminPresets`
- `ChannelRepository`, `BotChannelCategoryRepository`
- Support modules:
  - `Entities` holds the stored records.
  - `Text` holds trimming, ASCII case mapping, `Contains`, `Join` and `Split`.
  - `Seqs` holds the sequence functions.
  - `Sorting` is a stable insertion sort standing for LINQ `OrderBy`.
  - `Utf8` is the encoder behind `Encoding.UTF8.GetBytes`.
  - `Wrappers` holds `Option`.

Where the code and its design notes disagree, the model follows the code:

- **Login timestamp.** The risk check and `GetLoginHours` look only at
  `LastLoginAt`. There is no fallback to a creation or sync timestamp.
- **Ban-call exceptions.** No handler in `KickApi.cs` catches an exception
  from `BanChatMemberAsync`. An exception therefore ends the whole request
  (outcome `Faulted`) instead of being recorded per group.

## Model

| member | source | states |
|---|---|---|
| KickApi.FixedTimeEquals | src/TelegramPanel.Web/ExternalApi/KickApi.cs:135-148 | true exactly when the trimmed expected key is non-empty and equals the trimmed provided key (UTF-8 length check and byte comparison folded into string equality through injectivity of the encoding) |
| KickApi.SurroundingWhiteSpaceIgnored | src/TelegramPanel.Web/ExternalApi/KickApi.cs:137-138 | blanks around the provided key never change the answer: it matches exactly when the key is non-blank |
| KickApi.KeyComparisonIsCaseSensitive | src/TelegramPanel.Web/ExternalApi/KickApi.cs:143-147 | for any trimmed key and any lower-case letter in it, the key matches itself, while the key with that letter upper-cased is equal to it ignoring case and still does not match |
| KickApi.Authenticate | src/TelegramPanel.Web/ExternalApi/KickApi.cs:32-41 | the caller selection; its properties are stated by `AuthenticateFacts` and `AuthOutcomes`: the first enabled kick definition with a matching key, otherwise 404 when none is enabled and 401 when some is |
| Utf8.EncodeInjective | src/TelegramPanel.Web/ExternalApi/KickApi.cs:143-147 | two strings with the same UTF-8 bytes are the same string, so the byte comparison decides string equality |
| Utf8.DecodeEncodeChar | src/TelegramPanel.Web/ExternalApi/KickApi.cs:143-144 | the bytes written for a character decode back to its scalar value |
| Utf8.EncodeChar | src/TelegramPanel.Web/ExternalApi/KickApi.cs:143-144 | a character takes one to four bytes, and its first byte announces the length |
| KickApi.AuthenticateFacts | src/TelegramPanel.Web/ExternalApi/KickApi.cs:32-41 | the matched definition is the first one that is kick-typed (ignoring case), enabled and whose key matches; no match is NoneEnabled exactly when no kick definition is enabled (also when there is none), otherwise NoKeyMatched |
| KickApi.NewDefinitionKeepsEndpointHidden | src/TelegramPanel.Web/ExternalApi/ExternalApiModels.cs:13-14 | a fresh definition alone leaves the endpoint hidden (404), and its empty key matches no provided key |
| KickApi.ScopeOf | src/TelegramPanel.Web/ExternalApi/KickApi.cs:46-49 | the caller's permanent-ban flag wins over the default; bot id 0 forces all chats, otherwise the definition's flag; the chat set holds exactly the configured non-zero chat ids |
| KickApi.NewDefinitionScope | src/TelegramPanel.Web/ExternalApi/ExternalApiModels.cs:21-24 | a fresh definition targets every bot and every chat, and bans only when the caller asks for it |
| KickApi.AllBotsTakeAllChats | src/TelegramPanel.Web/ExternalApi/KickApi.cs:48 | with bot id 0 the chat filter never applies, whatever chat list is configured |
| KickApi.ResolveTargets | src/TelegramPanel.Web/ExternalApi/KickApi.cs:99-133 | the loop over the candidate bots computes the resolution specified by `Resolve`: cancelled when a check before some bot sees cancellation, otherwise the non-empty filtered groups and their chat total, after one check per candidate bot |
| KickApi.VisitBots | src/TelegramPanel.Web/ExternalApi/KickApi.cs:114-132 | the loop over the visited bots computes `ResolveFrom`: cancelled at the first check that sees cancellation, otherwise the non-empty groups and their chat total, after one check per bot |
| KickApi.ResolveFromCancelled | src/TelegramPanel.Web/ExternalApi/KickApi.cs:117-119 | a cancellation seen at the check before any visited bot cancels the visit |
| KickApi.ResolveFromCompleted | src/TelegramPanel.Web/ExternalApi/KickApi.cs:117-132 | with no check cancelled, the visit resolves to the groups of the bots and the sum of their sizes |
| KickApi.ResolveCancelledAt | src/TelegramPanel.Web/ExternalApi/KickApi.cs:117-119 | a cancellation seen at the check before any candidate bot cancels the resolution |
| KickApi.ResolveCompleted | src/TelegramPanel.Web/ExternalApi/KickApi.cs:117-132 | without cancellation the resolution holds the groups of the candidate bots and the sum of their sizes |
| KickApi.CandidateFacts | src/TelegramPanel.Web/ExternalApi/KickApi.cs:106-112 | the bots visited are exactly the active bots, restricted to the configured id when it is positive, in ascending id order |
| KickApi.CandidateMember | src/TelegramPanel.Web/ExternalApi/KickApi.cs:106-112 | a bot is visited exactly when it is stored, active and, for a positive configured id, has that id |
| KickApi.CandidatesSorted | src/TelegramPanel.Web/ExternalApi/KickApi.cs:108 | the visited bots are in ascending id order |
| KickApi.GroupsOfStep | src/TelegramPanel.Web/ExternalApi/KickApi.cs:121-129 | visiting one more bot appends its group exactly when its filtered chats are non-empty |
| KickApi.GroupsOfFacts | src/TelegramPanel.Web/ExternalApi/KickApi.cs:121-128 | every group is a visited bot with its filtered chats, which are non-empty |
| KickApi.GroupsOfMembership | src/TelegramPanel.Web/ExternalApi/KickApi.cs:125-128 | a visited bot has a group exactly when its filtered chats are non-empty |
| KickApi.GroupsOfSorted | src/TelegramPanel.Web/ExternalApi/KickApi.cs:108-128 | groups keep the ascending bot id order of the visit |
| KickApi.Resolve | src/TelegramPanel.Web/ExternalApi/KickApi.cs:99-133 | the target resolution; its properties are stated by `ResolutionRules`: active bots in ascending id order (only the configured one when its id is positive), each with its non-empty filtered chats |
| KickApi.ResolutionRules | src/TelegramPanel.Web/ExternalApi/KickApi.cs:106-132 | resolved groups are active bots (only the configured one when its id is positive) in ascending id order, each with its filtered non-empty chats; an eligible bot has a group exactly when chats remain; the total is the sum of group sizes |
| KickApi.ChatFilterRule | src/TelegramPanel.Web/ExternalApi/KickApi.cs:122-123 | with an explicit non-empty chat set a bot keeps exactly its chats in the set; otherwise it keeps all its chats |
| KickApi.TotalChatsAppend | src/TelegramPanel.Web/ExternalApi/KickApi.cs:129 | adding a group adds its size to the total |
| KickApi.ChatIds | src/TelegramPanel.Web/ExternalApi/KickApi.cs:69 | the ban call carries the group's chat ids, one per chat, in chat order |
| KickApi.ItemFor | src/TelegramPanel.Web/ExternalApi/KickApi.cs:75-83 | the item names the chat by id and title, succeeds exactly when the chat has no entry in the failure map, and carries that entry as its error |
| KickApi.GroupItems | src/TelegramPanel.Web/ExternalApi/KickApi.cs:75-83 | one item per chat of a group, in the group's order |
| KickApi.OkResponse | src/TelegramPanel.Web/ExternalApi/KickApi.cs:86-96 | the 200 response succeeds even when chats failed; total is the number of items, success the number of successful items, failed the number of failed ones and the difference of the two |
| KickApi.HandleMatched | src/TelegramPanel.Web/ExternalApi/KickApi.cs:43-96 | once a definition matched, the answer is never 404 or 401 |
| KickApi.FanOutFrom | src/TelegramPanel.Web/ExternalApi/KickApi.cs:61-84 | the fan-out over the resolved groups; its properties are stated by `FanOutCalls`, `FanOutStop` and `FanOutItems`, and `KickGroups` is proved to compute it |
| KickApi.FanOutCalls | src/TelegramPanel.Web/ExternalApi/KickApi.cs:63-72 | the ban calls follow the groups in order, one per group, with that group's bot, chat ids, the user id and ban flag, each after a cancellation check that saw none |
| KickApi.FanOutStop | src/TelegramPanel.Web/ExternalApi/KickApi.cs:63-84 | the fan-out completes after calling every group; is cancelled at the check before the next group; or faults on the last call, the only one that threw |
| KickApi.FanOutItems | src/TelegramPanel.Web/ExternalApi/KickApi.cs:61-83 | a completed fan-out lists exactly the resolved chats, group by group and in order, each reported against its group's failure map, so the number of items is the chat total |
| KickApi.GroupItemsStep | src/TelegramPanel.Web/ExternalApi/KickApi.cs:75-83 | the inner loop's next chat appends its item |
| KickApi.AddGroupItems | src/TelegramPanel.Web/ExternalApi/KickApi.cs:75-83 | the inner loop appends exactly the group's items to the results |
| KickApi.KickGroup | src/TelegramPanel.Web/ExternalApi/KickApi.cs:63-84 | one pass of the outer loop either ends the fan-out as `FanOutFrom` specifies, or leaves the same fan-out to the remaining groups |
| KickApi.FanOutStep | src/TelegramPanel.Web/ExternalApi/KickApi.cs:63-84 | one uncancelled group whose call returned adds its call and its items before the rest of the loop |
| KickApi.KickGroups | src/TelegramPanel.Web/ExternalApi/KickApi.cs:61-84 | the nested loop computes the fan-out specified by `FanOutFrom` |
| KickApi.HandleFannedOut | src/TelegramPanel.Web/ExternalApi/KickApi.cs:61-96 | past authentication, validation and a non-empty resolution, the fan-out's ending decides the answer: 200 with the report, Cancelled or Faulted |
| KickApi.BuildReport | src/TelegramPanel.Web/ExternalApi/KickApi.cs:86-96 | the report built from the results is `OkResponse` |
| KickApi.HandleMatchedAsync | src/TelegramPanel.Web/ExternalApi/KickApi.cs:43-96 | past authentication, the endpoint computes the answer and the ban calls specified by `HandleMatched` |
| KickApi.HandleAsync | src/TelegramPanel.Web/ExternalApi/KickApi.cs:22-97 | the endpoint computes the answer and the ban calls specified by `Handle` |
| KickApi.Handle | src/TelegramPanel.Web/ExternalApi/KickApi.cs:22-97 | the whole request; its properties are stated by `AuthOutcomes`, `CallsOnlyAfterValidation`, `CancelledMeansRequested`, `FaultEndsRequest` and the other request lemmas: authentication first, then validation, then resolution and the fan-out |
| KickApi.AuthOutcomes | src/TelegramPanel.Web/ExternalApi/KickApi.cs:35-40 | the answer is 404 exactly when no kick definition is enabled, and 401 exactly when some is enabled but none has a matching key |
| KickApi.CallsOnlyAfterValidation | src/TelegramPanel.Web/ExternalApi/KickApi.cs:35-59 | any ban call implies a matched key, a positive user id, and a resolution with at least one chat |
| KickApi.BadRequests | src/TelegramPanel.Web/ExternalApi/KickApi.cs:43-59 | a 400 makes no ban call, is unsuccessful with summary (0,0,0) and no results, gives the invalid-user message exactly when the user id is not positive, and otherwise follows an empty resolution |
| KickApi.OkReport | src/TelegramPanel.Web/ExternalApi/KickApi.cs:61-96 | a 200 follows a matched key and a positive user id; one ban call per resolved group with its bot and chat ids; one item per resolved chat laid out group by group; the summary counts the items |
| KickApi.OkMatched | src/TelegramPanel.Web/ExternalApi/KickApi.cs:43-96 | once a definition matched, a 200 follows a positive user id and a resolution, one ban call per group, one item per chat in layout, and the summary counts the items |
| KickApi.CompletedFanOut | src/TelegramPanel.Web/ExternalApi/KickApi.cs:61-84 | a fan-out that completed made one call per group, in order, with that group's bot and chat ids, and laid out one item per chat |
| KickApi.FaultEndsRequest | src/TelegramPanel.Web/ExternalApi/KickApi.cs:67-72 | an exception from a ban call ends the request: it came from the last call made, and every earlier call returned |
| KickApi.FaultEndsMatched | src/TelegramPanel.Web/ExternalApi/KickApi.cs:63-72 | once a definition matched, a fault came from the last ban call made, and every earlier call returned |
| KickApi.FaultedFanOut | src/TelegramPanel.Web/ExternalApi/KickApi.cs:63-72 | a faulted fan-out made a call, the last one threw and every earlier one returned |
| KickApi.CancelledMeansRequested | src/TelegramPanel.Web/ExternalApi/KickApi.cs:51-65 | a cancelled answer happens only when some cancellation check saw the token cancelled |
| ExternalApiModels.NewKickApiDefinition | src/TelegramPanel.Web/ExternalApi/ExternalApiModels.cs:19-25 | a new kick scope targets all bots (bot id 0) and all chats, has no chat list and kicks rather than bans |
| ExternalApiModels.NewExternalApiDefinition | src/TelegramPanel.Web/ExternalApi/ExternalApiModels.cs:8-17 | a new definition has type "kick", is disabled, has an empty key and carries its own default kick scope |
| AccountRisk.Classify | src/TelegramPanel.Core/Services/AccountRiskService.cs:18-50 | no login is its own case; otherwise an elapsed time under 24 hours is too short with a strictly positive remaining time, and 24 hours or more is satisfied |
| AccountRisk.CheckLoginDuration | src/TelegramPanel.Core/Services/AccountRiskService.cs:18-50 | risky with the fixed messages when no login was recorded; with a login, risky exactly when less than 24 hours elapsed, with the too-short message naming the elapsed hours and the detail naming the hours still to wait; a safe account gets the satisfied message and the detail naming the elapsed hours |
| AccountRisk.SafeStaysSafe | src/TelegramPanel.Core/Services/AccountRiskService.cs:31-33 | for a fixed last login, a later clock never turns a safe account risky |
| AccountRisk.FutureLoginIsRisky | src/TelegramPanel.Core/Services/AccountRiskService.cs:31-35 | a login stamped in the future keeps the account risky, with more than 24 hours still to wait |
| AccountRisk.CheckBatchAccounts | src/TelegramPanel.Core/Services/AccountRiskService.cs:55-79 | the risky list and the safe list are the input accounts that fail and pass the single check, in input order; together they are the input as a multiset; total equals risky plus safe, each count is its list's length, and the flag is set exactly when some account is risky |
| AccountRisk.NoRiskyIffAllSafe | src/TelegramPanel.Core/Services/AccountRiskService.cs:61-77 | the risky list is empty exactly when every input account passes the single check |
| AccountRisk.SummaryEntry | src/TelegramPanel.Core/Services/AccountRiskService.cs:146-150 | an entry is the phone, followed by the bracketed hours exactly when a login was recorded |
| AccountRisk.SummaryEntries | src/TelegramPanel.Core/Services/AccountRiskService.cs:146-150 | one entry per risky account, in list order |
| AccountRisk.GetRiskySummary | src/TelegramPanel.Core/Services/AccountRiskService.cs:141-153 | the fixed "all satisfied" sentence without risky accounts, otherwise a text that starts with the risky-list prefix |
| AccountRisk.SummaryListsRiskyAccounts | src/TelegramPanel.Core/Services/AccountRiskService.cs:146-152 | splitting the text after the prefix on "、" gives back exactly the entries of the risky accounts, in order, when no phone or hour text contains "、" |
| AccountRisk.AllSatisfiedIffNoRisky | src/TelegramPanel.Core/Services/AccountRiskService.cs:143-152 | the summary is the "all satisfied" sentence exactly when no account is counted risky |
| AccountExtensions.GetLoginHours | src/TelegramPanel.Data/Entities/AccountExtensions.cs:23-29 | none exactly when no login was recorded; a login after `now` gives a negative elapsed time, as nothing is clamped |
| AccountExtensions.LoginHoursFollowClock | src/TelegramPanel.Data/Entities/AccountExtensions.cs:28 | the elapsed time grows exactly with the clock and is zero at the login itself |
| AccountExtensions.GetLoginHoursFormatted | src/TelegramPanel.Data/Entities/AccountExtensions.cs:11-18 | "未知" without a login, otherwise the rendering of the same elapsed time `GetLoginHours` gives |
| AccountExtensions.FormattedUnknownIffUnset | src/TelegramPanel.Data/Entities/AccountExtensions.cs:13-17 | with a numeric formatter the text is "未知" exactly when no login was recorded |
| BotChannelJoinRetryHelper.LooksLikeChannelNotFound | src/TelegramPanel.Web/Services/BotChannelJoinRetryHelper.cs:8-15 | a null or blank message is never recognised |
| BotChannelJoinRetryHelper.ChannelNotFoundIffBothTokens | src/TelegramPanel.Web/Services/BotChannelJoinRetryHelper.cs:10-14 | recognised exactly when the message contains both "Channel" and "not found", ignoring case |
| BotChannelJoinRetryHelper.RecognisedAround | src/TelegramPanel.Web/Services/BotChannelJoinRetryHelper.cs:10-14 | a message with both tokens somewhere inside it, in any letter case, is recognised |
| BotChannelJoinRetryHelper.ChannelNotFoundInAnyCase | src/TelegramPanel.Web/Services/BotChannelJoinRetryHelper.cs:10-14 | every message equal, ignoring case, to the usual text "Channel not found" or to the reversed order "not found: Channel" is recognised |
| BotChannelJoinRetryHelper.ChatNotFoundIsNearMiss | src/TelegramPanel.Web/Services/BotChannelJoinRetryHelper.cs:13-14 | "Chat not found" holds the not-found token but not the channel token, so it is not recognised |
| BotChannelJoinRetryHelper.PrivateChannelIsNearMiss | src/TelegramPanel.Web/Services/BotChannelJoinRetryHelper.cs:13-14 | "Channel is private" holds the channel token but not the not-found token, so it is not recognised |
| BotChannelJoinRetryHelper.OneTokenIsNotEnough | src/TelegramPanel.Web/Services/BotChannelJoinRetryHelper.cs:13-14 | every message that holds, ignoring case, exactly one of the two tokens is not recognised |
| BotChannelJoinRetryHelper.FailureEntry | src/TelegramPanel.Web/Services/BotChannelJoinRetryHelper.cs:32-40 | a failure line starts with the channel title and contains the error text |
| BotChannelJoinRetryHelper.FailureList.Add | src/TelegramPanel.Web/Services/BotChannelJoinRetryHelper.cs:32-40 | appending keeps every earlier line and adds the new one at the end |
| BotChannelJoinRetryHelper.TryJoinChannel | src/TelegramPanel.Web/Services/BotChannelJoinRetryHelper.cs:17-43 | true exactly when the export succeeded and the join with exactly that link succeeded; the list gains the failure line when one arises and nothing otherwise, so true exactly when the list is unchanged |
| BotChannelJoinRetryHelper.JoinFailureShape | src/TelegramPanel.Web/Services/BotChannelJoinRetryHelper.cs:28-42 | a failure line arises exactly when the join did not succeed; it starts with the title and separator and carries the export exception, the join exception or the reported error (empty when null) |
| BotAdminPresets.Lookup | src/TelegramPanel.Web/Services/BotAdminPresetsService.cs:38-41 | a key lookup finds nothing exactly when no member has the key, and otherwise returns a member's value |
| BotAdminPresets.ObjectAt | src/TelegramPanel.Web/Services/BotAdminPresetsService.cs:38-42 | the `is JsonObject` test succeeds exactly when the key is present with an object value |
| BotAdminPresets.WithMemberLookup | src/TelegramPanel.Web/Services/BotAdminPresetsService.cs:111 | after `obj[key] = value` the key reads the value, every other key reads as before, and a member is added only when the key was absent |
| BotAdminPresets.WithMemberMembers | src/TelegramPanel.Web/Services/BotAdminPresetsService.cs:111 | setting a member keeps every member under another key and adds only the new member |
| BotAdminPresets.WithoutMemberLookup | src/TelegramPanel.Web/Services/BotAdminPresetsService.cs:152 | `Remove` leaves every other key as it was, changes nothing when the key is absent, and otherwise drops one member |
| BotAdminPresets.WithoutMemberMembers | src/TelegramPanel.Web/Services/BotAdminPresetsService.cs:152 | removing adds no member and keeps every member under another key |
| BotAdminPresets.WithoutUniqueKey | src/TelegramPanel.Web/Services/BotAdminPresetsService.cs:152 | with unique keys the removed key is gone |
| BotAdminPresets.JsonObjectNode.Set | src/TelegramPanel.Web/Services/BotAdminPresetsService.cs:111-113 | the node's members become those of the upsert |
| BotAdminPresets.JsonObjectNode.Remove | src/TelegramPanel.Web/Services/BotAdminPresetsService.cs:152 | reports whether the key was present, and the node's members lose it |
| BotAdminPresets.PresetsObject | src/TelegramPanel.Web/Services/BotAdminPresetsService.cs:30-42 | a `Presets` object is found only in a present file whose root is an object |
| BotAdminPresets.IdOf | src/TelegramPanel.Web/Services/BotAdminPresetsService.cs:56-65 | an element stands for an id only when that id is a positive 64-bit value; nulls, other numbers, booleans, arrays and objects stand for none |
| BotAdminPresets.ValidIds | src/TelegramPanel.Web/Services/BotAdminPresetsService.cs:51-67 | every id read is a positive 64-bit value |
| BotAdminPresets.ValidIdsMembers | src/TelegramPanel.Web/Services/BotAdminPresetsService.cs:54-66 | an id is read exactly when some array element stands for it |
| BotAdminPresets.ReadIds | src/TelegramPanel.Web/Services/BotAdminPresetsService.cs:51-67 | the element loop reads the ids of the array's elements, in element order |
| BotAdminPresets.PresetIdsMembers | src/TelegramPanel.Web/Services/BotAdminPresetsService.cs:51-69 | a preset's ids are exactly the ids some element of its array stands for |
| BotAdminPresets.PresetOf | src/TelegramPanel.Web/Services/BotAdminPresetsService.cs:47-73 | a member gives a preset exactly when its key is non-blank and some valid id remains; the preset has the trimmed key and the distinct ids |
| BotAdminPresets.PresetOfWellFormed | src/TelegramPanel.Web/Services/BotAdminPresetsService.cs:47-73 | a preset read from a member has a trimmed non-blank name and a non-empty list of distinct positive ids |
| BotAdminPresets.ReadPreset | src/TelegramPanel.Web/Services/BotAdminPresetsService.cs:47-73 | one pass over a member reads exactly the preset `PresetOf` gives |
| BotAdminPresets.CollectPresets | src/TelegramPanel.Web/Services/BotAdminPresetsService.cs:44-74 | the member loop collects the presets of the members, in member order |
| BotAdminPresets.CollectMembers | src/TelegramPanel.Web/Services/BotAdminPresetsService.cs:44-74 | the loop's list holds exactly the presets some member gives |
| BotAdminPresets.Presets | src/TelegramPanel.Web/Services/BotAdminPresetsService.cs:26-84 | the preset listing; its properties are stated by `PresetsMembers`, `PresetsCounts`, `PresetIdsOrder` and the shape lemmas |
| BotAdminPresets.PresetsMembers | src/TelegramPanel.Web/Services/BotAdminPresetsService.cs:26-84 | no `Presets` object (missing file, unreadable file, non-object root, section or presets) gives the empty list; otherwise a preset is listed exactly when some member gives it |
| BotAdminPresets.NameLeTotalPreorder | src/TelegramPanel.Web/Services/BotAdminPresetsService.cs:76-78 | the case-insensitive name order is total and transitive |
| BotAdminPresets.PresetsShape | src/TelegramPanel.Web/Services/BotAdminPresetsService.cs:69-78 | the list is ordered by name ignoring case, and every preset has a trimmed non-blank name and distinct positive ids |
| BotAdminPresets.BotAdminPresetsService.constructor | src/TelegramPanel.Web/Services/BotAdminPresetsService.cs:26-30 | the service reads and rewrites the given settings file |
| BotAdminPresets.BotAdminPresetsService.GetPresets | src/TelegramPanel.Web/Services/BotAdminPresetsService.cs:26-84 | the nested loops return exactly the presets specified by `Presets` for the current file |
| BotAdminPresets.SavedIds | src/TelegramPanel.Web/Services/BotAdminPresetsService.cs:92 | the ids saved are distinct, positive and taken from the input, include every positive input id, and follow the order of their first occurrence in the input |
| BotAdminPresets.SavedIdsEmpty | src/TelegramPanel.Web/Services/BotAdminPresetsService.cs:92-94 | no id is saved exactly when no input id is positive |
| BotAdminPresets.PresetsCounts | src/TelegramPanel.Web/Services/BotAdminPresetsService.cs:44-78 | when a `Presets` object exists, the listing holds each preset exactly as often as the members give it |
| BotAdminPresets.PresetIdsOrder | src/TelegramPanel.Web/Services/BotAdminPresetsService.cs:51-69 | a preset's ids follow the order of their first occurrence among the valid ids read |
| Seqs.IndexOf | src/TelegramPanel.Web/Services/BotAdminPresetsService.cs:69 | the position of the first occurrence of an element |
| Seqs.DistinctInFirstOccurrenceOrder | src/TelegramPanel.Web/Services/BotAdminPresetsService.cs:69 | `Distinct` keeps elements in the order of their first occurrence |
| Seqs.FilterKeepsFirstOrder | src/TelegramPanel.Web/Services/BotAdminPresetsService.cs:92 | filtering keeps the relative order of the first occurrences of the elements that pass |
| Seqs.DistinctFilterOrder | src/TelegramPanel.Web/Services/BotAdminPresetsService.cs:92 | `Where(...).Distinct()` keeps the passing elements in the order of their first occurrence |
| Text.UpperOneLetter | src/TelegramPanel.Web/ExternalApi/KickApi.cs:143-147 | upper-casing one lower-case letter of a trimmed string gives a different trimmed string equal to it ignoring case |
| BotAdminPresets.IdNodes | src/TelegramPanel.Web/Services/BotAdminPresetsService.cs:107-109 | one integer node per saved id, in order |
| BotAdminPresets.IdArray | src/TelegramPanel.Web/Services/BotAdminPresetsService.cs:107-109 | the loop builds the array of integer nodes for the saved ids, in order |
| BotAdminPresets.ValidIdsOfIdNodes | src/TelegramPanel.Web/Services/BotAdminPresetsService.cs:107-109 | positive 64-bit ids written as integer nodes are read back unchanged by the element loop of `GetPresetsAsync` |
| BotAdminPresets.BotAdminPresetsService.SavePreset | src/TelegramPanel.Web/Services/BotAdminPresetsService.cs:86-127 | the new file and outcome are those specified by `SaveSpec` |
| BotAdminPresets.SaveSpec | src/TelegramPanel.Web/Services/BotAdminPresetsService.cs:86-127 | the save request; its properties are stated by `SaveOutcomes`, `SaveThenGet` and the other save lemmas, and `SavePreset` is proved to compute it |
| BotAdminPresets.SaveOutcomes | src/TelegramPanel.Web/Services/BotAdminPresetsService.cs:88-102 | a blank name is rejected first, then an id list without a positive id, in both cases leaving the file alone; storage fails exactly on a valid request against a corrupt file or a root that is neither null nor an object |
| BotAdminPresets.SaveRejections | src/TelegramPanel.Web/Services/BotAdminPresetsService.cs:88-94 | the blank-name rejection happens exactly for a blank name, the empty-ids one exactly for a non-blank name with no positive id, and neither touches the file |
| BotAdminPresets.SaveStorage | src/TelegramPanel.Web/Services/BotAdminPresetsService.cs:99-102 | storage fails exactly for a valid request against a corrupt file or a root that is neither null nor an object, and leaves the file alone |
| BotAdminPresets.SavedFile | src/TelegramPanel.Web/Services/BotAdminPresetsService.cs:102-113 | a successful save writes an object root: the old root's members (none for a null root) with the trimmed name set to the saved ids under `BotAdminPresets`/`Presets` |
| BotAdminPresets.SavedMemberPreset | src/TelegramPanel.Web/Services/BotAdminPresetsService.cs:107-111 | the member a save writes reads back as the trimmed name with the saved ids |
| BotAdminPresets.SaveThenGet | src/TelegramPanel.Web/Services/BotAdminPresetsService.cs:104-113 | after a successful save, reading the file lists the trimmed name with the saved ids |
| BotAdminPresets.SaveKeepsOtherKeys | src/TelegramPanel.Web/Services/BotAdminPresetsService.cs:104-113 | a save leaves every other root key and every other section key as it was, and the section becomes an object |
| BotAdminPresets.SaveTreePresets | src/TelegramPanel.Web/Services/BotAdminPresetsService.cs:104-113 | the new `Presets` object is the old one (empty when there was none) with the name upserted |
| BotAdminPresets.ProducesKeptBySet | src/TelegramPanel.Web/Services/BotAdminPresetsService.cs:111 | setting a member keeps every preset given under another name |
| BotAdminPresets.ProducesBeforeSet | src/TelegramPanel.Web/Services/BotAdminPresetsService.cs:111 | setting a member creates no preset under another name |
| BotAdminPresets.ProducesWithMember | src/TelegramPanel.Web/Services/BotAdminPresetsService.cs:111 | under names other than the one set, the presets given are unchanged |
| BotAdminPresets.SaveKeepsOtherPresets | src/TelegramPanel.Web/Services/BotAdminPresetsService.cs:104-113 | after a save, the presets listed under every other name are those listed before |
| BotAdminPresets.BotAdminPresetsService.DeletePreset | src/TelegramPanel.Web/Services/BotAdminPresetsService.cs:129-170 | the new file and outcome are those specified by `DeleteSpec` |
| BotAdminPresets.DeleteSpec | src/TelegramPanel.Web/Services/BotAdminPresetsService.cs:129-170 | the delete request; its properties are stated by `DeleteOutcomes` and the other delete lemmas, and `DeletePreset` is proved to compute it |
| BotAdminPresets.DeleteOutcomes | src/TelegramPanel.Web/Services/BotAdminPresetsService.cs:131-153 | the file changes only on a delete, which happens exactly when the trimmed name is non-blank and is a key of an existing `Presets` object; it fails exactly on a non-blank name against a corrupt file or a root that is neither null nor an object |
| BotAdminPresets.DeleteKeepsOtherKeys | src/TelegramPanel.Web/Services/BotAdminPresetsService.cs:152-156 | a delete leaves every other root and section key, the `Presets` object loses the name's member, and with unique keys the name is gone |
| BotAdminPresets.DeletedPresetsObject | src/TelegramPanel.Web/Services/BotAdminPresetsService.cs:152 | after a delete, the `Presets` object is the old one without the trimmed name's member |
| BotAdminPresets.ProducesWithoutMember | src/TelegramPanel.Web/Services/BotAdminPresetsService.cs:152 | removing a member gives no new preset and keeps every preset under another name |
| BotAdminPresets.DeleteKeepsOtherPresets | src/TelegramPanel.Web/Services/BotAdminPresetsService.cs:129-156 | a delete never adds a preset and keeps every preset listed under another name |
| ChannelRepository.SyncedNotBeforeTotalPreorder | src/TelegramPanel.Data/Repositories/ChannelRepository.cs:44 | newest-first by `SyncedAt` is a total preorder |
| ChannelRepository.Listing | src/TelegramPanel.Data/Repositories/ChannelRepository.cs:55-123 | a filtered listing newest first; its properties are stated by `ListingFacts` |
| ChannelRepository.ListingFacts | src/TelegramPanel.Data/Repositories/ChannelRepository.cs:57-79 | a filtered listing holds exactly the stored channels that pass, each as often as stored, newest first |
| ChannelRepository.GetById | src/TelegramPanel.Data/Repositories/ChannelRepository.cs:47-53 | none exactly when no stored channel has the id; otherwise a stored channel with that id |
| ChannelRepository.GetByTelegramId | src/TelegramPanel.Data/Repositories/ChannelRepository.cs:64-70 | none exactly when no stored channel has the Telegram id; otherwise a stored channel with that Telegram id |
| ChannelRepository.GetAll | src/TelegramPanel.Data/Repositories/ChannelRepository.cs:55-62 | every stored channel, each as often as stored, newest first |
| ChannelRepository.GetCreated | src/TelegramPanel.Data/Repositories/ChannelRepository.cs:72-80 | exactly the stored channels with a creating account, newest first |
| ChannelRepository.GetByCreatorAccount | src/TelegramPanel.Data/Repositories/ChannelRepository.cs:82-90 | exactly the stored channels created by that account, newest first |
| ChannelRepository.GetByGroup | src/TelegramPanel.Data/Repositories/ChannelRepository.cs:105-113 | exactly the stored channels of that group, newest first |
| ChannelRepository.GetBroadcastChannels | src/TelegramPanel.Data/Repositories/ChannelRepository.cs:115-123 | exactly the stored broadcast channels, newest first |
| ChannelRepository.GetForAccount | src/TelegramPanel.Data/Repositories/ChannelRepository.cs:92-103 | exactly the stored channels that some link of the account points at (only creator links unless non-creator links are included), newest first |
| ChannelRepository.CreatorLinksAreIncluded | src/TelegramPanel.Data/Repositories/ChannelRepository.cs:95 | including non-creator links only ever adds channels |
| ChannelRepository.ParseFilterType | src/TelegramPanel.Data/Repositories/ChannelRepository.cs:29-33 | the trimmed, lower-cased filter type (null read as "all") selects public exactly when it is "public" and private exactly when it is "private" |
| ChannelRepository.NameKind | src/TelegramPanel.Data/Repositories/ChannelRepository.cs:29-33 | a lower-case name without blanks at either end selects public exactly when it is "public", private exactly when it is "private", and otherwise every kind |
| ChannelRepository.ShortNameIsAll | src/TelegramPanel.Data/Repositories/ChannelRepository.cs:29-33 | a filter type shorter than "public" selects every kind |
| ChannelRepository.FilterTypeNames | src/TelegramPanel.Data/Repositories/ChannelRepository.cs:29-33 | "public" and "private" name their kinds, and a null filter type applies no kind filter |
| ChannelRepository.View | src/TelegramPanel.Data/Repositories/ChannelRepository.cs:15-45 | the view query; its properties are stated by `ViewMembers` |
| ChannelRepository.ViewMembers | src/TelegramPanel.Data/Repositories/ChannelRepository.cs:15-45 | a channel is in the view exactly when it is stored, has a creator (that creator for a positive id), has a non-empty username for "public" and none or an empty one for "private", and, for a non-blank trimmed term, has the term in its title or non-null username; the view is newest first |
| ChannelRepository.InViewMeans | src/TelegramPanel.Data/Repositories/ChannelRepository.cs:15-45 | the view condition is the creator test, the kind test on the username and, for a non-empty term, the term in the title or username |
| ChannelRepository.KindsPartition | src/TelegramPanel.Data/Repositories/ChannelRepository.cs:30-33 | for the same creator and search, the public and private channels together are the unfiltered ones, as a multiset |
| ChannelRepository.PublicPrivateSplitAll | src/TelegramPanel.Data/Repositories/ChannelRepository.cs:29-33 | the "public" view and the "private" view together are the "all" view, as a multiset |
| ChannelRepository.Wrap32 | src/TelegramPanel.Data/Repositories/ChannelRepository.cs:140 | the 32-bit result is in range, is the value itself when that is in range, and differs from it by a multiple of 2^32 |
| ChannelRepository.ClampPage | src/TelegramPanel.Data/Repositories/ChannelRepository.cs:133-135 | a negative page index becomes 0; a non-positive size becomes 20 and a size over 500 becomes 500 |
| ChannelRepository.QueryForViewPaged | src/TelegramPanel.Data/Repositories/ChannelRepository.cs:125-145 | the paged view with the offset computed without overflow; its properties are stated by `PageIsSlice` and `EveryChannelOnItsPage` |
| ChannelRepository.QueryForViewPagedAsWritten | src/TelegramPanel.Data/Repositories/ChannelRepository.cs:125-145 | the paged view as written, with the 32-bit offset; `PagingOffsetWraps` exhibits where it differs |
| ChannelRepository.PageIsSlice | src/TelegramPanel.Data/Repositories/ChannelRepository.cs:137-144 | the page is the slice of the view from index times size, at most size long and empty past the end, and the total is the size of the whole view whatever page is asked for |
| ChannelRepository.PageStart | src/TelegramPanel.Data/Repositories/ChannelRepository.cs:140 | page `j / n` starts at most at `j`, `j % n` positions before it |
| ChannelRepository.EveryChannelOnItsPage | src/TelegramPanel.Data/Repositories/ChannelRepository.cs:139-142 | channel `j` of the view is at position `j % size` of page `j / size` |
| ChannelRepository.ViewPaging | src/TelegramPanel.Data/Repositories/ChannelRepository.cs:125-145 | the paged query's total is the view's size, and every item shown is in the view |
| ChannelRepository.PagingOffsetWraps | src/TelegramPanel.Data/Repositories/ChannelRepository.cs:140 | as written, page 8589935 of 500 starts at channel 204, so a view of more than 204 channels shows channels there; the corrected page is empty |
| BotChannelCategoryRepository.NameLeTotalPreorder | src/TelegramPanel.Data/Repositories/BotChannelCategoryRepository.cs:31-38 | the ordinal name order is total and transitive |
| BotChannelCategoryRepository.CategoryIds | src/TelegramPanel.Data/Repositories/BotChannelCategoryRepository.cs:18-21 | an id is collected exactly when some chat the bot is a member of is in that category |
| BotChannelCategoryRepository.GetForBot | src/TelegramPanel.Data/Repositories/BotChannelCategoryRepository.cs:12-33 | the categories of a bot's chats; its properties are stated by `ForBotMembers` and `ForBotOnce` |
| BotChannelCategoryRepository.ForBotMembers | src/TelegramPanel.Data/Repositories/BotChannelCategoryRepository.cs:12-33 | a category is listed exactly when the bot id is positive, the category is stored and some chat the bot manages is in it; the list is ordered by name |
| BotChannelCategoryRepository.FilterUnique | src/TelegramPanel.Data/Repositories/BotChannelCategoryRepository.cs:30 | filtering categories with unique ids gives no repeats |
| BotChannelCategoryRepository.ForBotOnce | src/TelegramPanel.Data/Repositories/BotChannelCategoryRepository.cs:22-32 | with unique category ids, no category is listed twice |
| BotChannelCategoryRepository.GetAllOrdered | src/TelegramPanel.Data/Repositories/BotChannelCategoryRepository.cs:35-40 | every stored category, each as often as stored, ordered by name |
| BotChannelCategoryRepository.GetByName | src/TelegramPanel.Data/Repositories/BotChannelCategoryRepository.cs:42-49 | none for a blank trimmed name; otherwise none exactly when no category has the trimmed name, else the first category whose name is exactly the trimmed name |
| BotChannelCategoryRepository.ByNameIgnoresSurroundingBlanks | src/TelegramPanel.Data/Repositories/BotChannelCategoryRepository.cs:44 | blanks around the name asked for do not change the answer |

## Left out

- The HTTP layer of `KickApi.cs` is not modelled: routing, antiforgery, the
  `X-API-Key` header read and the JSON property names. The endpoint's answer
  is an outcome datatype, and the key is a parameter.
- Configuration binding of `ExternalApi:Apis` is not modelled. The
  definitions are a parameter, and a missing section is the empty sequence.
- The Telegram and store calls are oracles given as parameters:
  `GetAllBotsAsync`, `GetChatsAsync`, `BanChatMemberAsync`,
  `ExportInviteLinkAsync` and `JoinChatOrChannelAsync`.
- Constant-time comparison is modelled only by its equality result; its
  timing cannot be stated.
- KickApi.Resolve: the store reads `GetAllBotsAsync` and `GetChatsAsync` are
  total functions, because their exceptions end the request in the source
  (KickApi.cs lines 106 and 121) and no answer is modelled for them;
  `Faulted` arises only from the ban call.
- Cancellation is an oracle indexed by the number of the check, so there is
  no concurrency to model. Cancelled requests and ban-call exceptions end as
  the `Cancelled` and `Faulted` outcomes instead of propagating exceptions.
- AccountRisk.CheckLoginDuration: time is whole minutes rather than
  `TotalHours` doubles, and the threshold is 24·60 minutes. The `:F1`
  rendering of hours is an abstract `fmt` parameter; the message texts are
  stated in full around it.
- AccountExtensions.GetLoginHours: returns elapsed minutes, not fractional
  hours.
- `DateTime.UtcNow` is the parameter `now`.
- String case mapping is modelled for ASCII letters only. This covers
  `OrdinalIgnoreCase`, `ToLowerInvariant` and `StringComparer.OrdinalIgnoreCase`.
  Strings are sequences of Unicode scalar values, not UTF-16 code units.
- The preset storage plumbing is not part of this model: file I/O, the
  `SemaphoreSlim` write lock, serializer options, indentation and the atomic
  write. The file is a value: missing, unparseable, or a parsed JSON tree.
  `LocalConfigFile` is not part of this model; its `EnsureExistsAsync` is
  taken to leave an empty object `{}` when the file is missing.
- Within a JSON object, `JsonObject` rejects duplicate keys when parsing. The
  model keeps members in order with a first-match lookup.
- BotAdminPresets.DeleteKeepsOtherKeys: states that the name is gone only
  under `KeysUnique`, because the model's trees may repeat keys.
- How `JsonValue.TryGetValue` behaves on each number representation is
  simplified. An integer node stands for its value when within 64 bits, and
  any other number node stands for none.
- Reassigning the same `Presets` and section nodes to their parents is
  modelled as having no effect.
- EF Core specifics are left out: `Include`, `AsNoTracking` and async
  materialisation.
- The provider's `LIKE` semantics are left out: case-insensitivity, and `%`
  or `_` inside the search term. Search is a plain substring test.
- Orders by `SyncedAt` and by name are stable sorts, so ties keep store
  order; SQL leaves the order of ties unspecified.
  `FirstOrDefaultAsync` without an order is taken to mean the first in store
  order.
- Category names are ordered ordinally, which is the database's binary
  collation.
- `CountAsync` is unbounded, although the C# total is an `int`.
- `PanelTimeZoneService.cs` is not part of this model. It wraps the system
  time-zone database.
- Some files have no behaviour: the migration, the repository and group
  service interfaces, and the constant and enum files.

## Findings

| source | as written | input that shows it | evidently intended | confidence | as-written member | corrected member |
|---|---|---|---|---|---|---|
| src/TelegramPanel.Data/Repositories/ChannelRepository.cs:140 | `Skip(pageIndex * pageSize)` multiplies two clamped `int`s, and the product wraps around in 32 bits | pageIndex 8589935, pageSize 500: the product 4294967500 wraps to 204, so on a view of more than 204 channels this far-away page shows channels from position 204 on | a page past the end of the view is empty, and every channel is on page `j / size` only | not executed | ChannelRepository.PagingOffsetWraps | ChannelRepository.PageIsSlice |
