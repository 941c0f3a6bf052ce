# Marvel Rivals Discord bot: the reminder tick, its settings, and three commands

A Dafny model of the deterministic parts of the Marvel Rivals Discord bot:

- **Teamup reminder tick** (`TeamupReminder`). A `ReminderScheduler` object holds the process-lifetime set of event ids already announced. Its `Tick` method does one poll:
  - the `enabled`/`channelId` guard;
  - channel resolution;
  - the lead-time window `(now, now + leadMinutes·60000]`;
  - the calendar fetch;
  - the category → sub-calendar filter;
  - the dedupe loop, which marks each new id before sending its reminder.

  `Tick` is proved equal to a pure function, `TickSpec`. The lemmas state the guard, the window boundaries, the category filter, the dedupe, and what repeated ticks (`Run`) can and cannot send.
- **Guild settings store** (`TeamupSettings`). A `SettingsStore` object holds the settings file. Reads treat a missing or corrupt file as `{}`. `setGuildSettings` shallow-merges a partial record into one guild's record and rewrites the whole file.
- **`/mr-teamup`** (`MrTeamup`). Each subcommand makes one partial write to the store (or, for `status`, a read) and answers with a fixed reply. The lemmas state what a series of subcommands leaves in each field.
- **`/mr-patchnotes`** (`MrPatchnotes`):
  - `stripHtml` with the regular expression `<[^>]*>`, and `shorten`;
  - extracting the patch list from either response shape;
  - the comparator sort, done in place on an array;
  - the first `count` patches and the numbered fields built from them.
- **`/mr-build-my-team`** (`MrBuildMyTeam`). Heroes are sorted into front line, damage and support by their role text. One hero is picked from each non-empty group, and a fill loop brings the team to three distinct heroes.
- **`JsValues`** holds the JavaScript semantics these rely on: JSON values, truthiness, `Number`, `String`, ASCII case conversion, `indexOf`, and subsequences.

Behaviour of the code that is easy to misread:

- **No defaults on save.** Saving a partial record adds no default fields: `setGuildSettings` is a plain `{ ...current, ...partial }`. `MergeAddsNoDefaults` and `MergeExample` state this.
- **Channel resolved once.** The tick resolves the channel once, before the fetch, and returns when that fails. No event is looked at in a tick whose channel does not resolve.
- **Marked before sending.** An id is marked before its message is sent, and stays marked when the send fails.
- **Dedupe key.** The key is `ev.id || ev.event_id` alone, with no start time.
- **One settings record.** The tick reads a single settings record through `loadSettings`. `teamupSettings.js` does not export that function, so as written the tick throws at its first line. The store, meanwhile, is keyed per guild. The model takes the record the tick reads as a parameter.
- **The reminder is never started.** `src/bot.js` never calls `startTeamupReminder`, so as written no tick runs at all. The model describes the ticks of a started loop.
- **A throwing tick ends the process.** A tick that throws is a rejected promise of the interval callback, and nothing handles it. Under Node's default handling of unhandled rejections the process then ends, and the marked set goes with it. The model's throwing exits are a window end outside the range of `Date` (`DateOutOfRange`) and a category that is not text (`CategoryNotText`). `Run` is one process lifetime and stops at such a tick (`ThrowEndsRun`).
- **`/mr-patchnotes` always fails to fetch.** `getPatchNotes` calls `httpGetJson`, which `src/utils/marvelHttpClient.js` does not define (line 103). The resulting `ReferenceError` is caught by the `try` at `src/commands/mr-patchnotes.js:36-46`, so as written the command always replies that it could not fetch. The model takes the fetch outcome as an input, so it also describes the command with a working client.
- **Oldest first.** The patch-note comparator returns `da - db`. That sorts dated patches oldest first, despite the comment "newest first". The model keeps the ascending order (`InsertionSortedOrder`). Its visible effect is that a reply titled "Latest Patch Notes" shows the oldest dated patches (`OldestShownFirst`).

## Model

| member | source | states |
|---|---|---|
| JsValues.Truthy | src/utils/teamupReminder.js:102-104 | JavaScript truthiness, behind every "or" fallback and `if (!x)` guard: `undefined`, `null`, `false`, `0` and `""` are falsy, and every other value, arrays and objects included, is truthy |
| JsValues.ToStr | src/utils/teamupReminder.js:142 | `String(v)`: a string is itself, a natural number its decimal digits, a negative number `-` and the digits, `true`/`false`, `"undefined"`, `"null"`, `"[object Object]"` for a non-array object; the array case is stated by `ArrayText` |
| JsValues.NatToString | src/commands/mr-patchnotes.js:92 | the decimal digits of a natural number: non-empty, all digits, and reading back as the same number |
| JsValues.IntToString | src/utils/teamupReminder.js:142 | the text of an integer: the digits, with a `-` in front for a negative one |
| JsValues.NumberOfString | src/utils/teamupReminder.js:142 | `Number(String(n))` gives back a natural number `n` |
| JsValues.ToLower | src/utils/teamupReminder.js:128 | `toLowerCase()`: the same length, each ASCII capital replaced by its small letter and every other character kept |
| JsValues.ToUpper | src/utils/teamupReminder.js:167 | `toUpperCase()`: the same length, each ASCII small letter replaced by its capital and every other character kept |
| JsValues.Contains | src/commands/mr-build-my-team.js:40-42 | `s.indexOf(sub) !== -1`: some window of `s` of the length of `sub` equals `sub` |
| JsValues.ToNumber | src/utils/teamupReminder.js:114 | `Number(v)` of a number is that number; `undefined` and non-array objects give NaN; `null`, `false` and `""` give 0, `true` gives 1; a string or an array is read through its text, so a non-empty string that is not all digits gives NaN |
| JsValues.StringToNumber | src/utils/teamupReminder.js:114 | the empty string is 0, a string of decimal digits is its value, and any other string is NaN |
| JsValues.DecimalValue | src/utils/teamupReminder.js:114 | the value of a digit string is below 10 to the power of its length; the empty string is 0 and a single digit is itself |
| JsValues.JoinWithCommas | src/commands/mr-build-my-team.js:39 | `join(",")` of no parts is `""` and of one part is that part; `JoinSnoc` gives the general case |
| JsValues.JoinSnoc | src/commands/mr-build-my-team.js:39 | appending a part to a non-empty list appends a comma and that part to the joined text, so the joined text is the parts separated by commas |
| JsValues.ArrayText | src/commands/mr-build-my-team.js:39 | `String` of an array: `[]` is `""`, `[x]` is the text of `x` (`""` for `null` or `undefined`, `String(x)` otherwise), and appending `x` to a non-empty array appends `,` and the text of `x`, so the text is the element texts separated by commas |
| JsValues.ArrayConversions | src/commands/mr-build-my-team.js:39 | `Number([])` is 0, `Number(["30"])` is 30, `Number([1, 2])` is NaN; `String([1, 2])` is `"1,2"`, `String(["Tank"])` is `"Tank"`, and a `null` element shows as `""` |
| TeamupReminder.LeadMinutes | src/utils/teamupReminder.js:114 | the lead time is never 0; it is 15 when `leadMinutes` is missing, 0 or not a number, and the stored number otherwise |
| TeamupReminder.ChosenCategory | src/utils/teamupReminder.js:128 | a falsy category becomes `"matches"`; a string is lower-cased; a truthy non-string makes `toLowerCase` throw (`None`), and only then |
| TeamupReminder.AllowedSubcalendar | src/utils/teamupReminder.js:128-132 | an id is required exactly when the category is not `"all"` and has a non-empty configured sub-calendar id, and it is that id |
| TeamupReminder.InDateRange | src/utils/teamupReminder.js:113-118 | a time within 8.64e15 ms of the epoch, the range `new Date` gives a valid date for; outside it `toISOString` throws |
| TeamupReminder.Throws | src/utils/teamupReminder.js:98-205 | the exits that are exceptions escaping the interval callback: the date range and a category that is not text |
| TeamupReminder.Upcoming | src/utils/teamupReminder.js:134-146 | an event is kept iff it is fetched and passes the filter (a parsed start, `now < start <= windowEnd`, the required sub-calendar); the kept events keep their fetch order |
| TeamupReminder.WindowBoundaries | src/utils/teamupReminder.js:134-139 | an event starting at `now` is dropped, one exactly at the window end is kept, and one a millisecond later is dropped |
| TeamupReminder.CategoryFilter | src/utils/teamupReminder.js:128-144 | with `"all"`, or a category with no configured id, every in-window event is kept; otherwise exactly those whose sub-calendar id, converted by `String` (absent as `""`), equals the id |
| TeamupReminder.SubcalendarKey | src/utils/teamupReminder.js:142 | the event's sub-calendar id converted by `String`, or `""` when it is falsy; `CategoryFilter` and `NumericSubcalendarMatches` state what it admits |
| TeamupReminder.UpcomingCounts | src/utils/teamupReminder.js:134-146 | the filter keeps every copy of an event that passes it and no copy of one that does not, so `upcoming` holds an event exactly as often as the fetched list does when it passes |
| TeamupReminder.Keep | src/utils/teamupReminder.js:134-146 | the filter's predicate: a valid start, strictly after now and no later than the window end, and the required sub-calendar; `Upcoming` and `WindowBoundaries` state its effect |
| TeamupReminder.EventKey | src/utils/teamupReminder.js:149 | the dedupe key: `ev.id`, or `ev.event_id` when `ev.id` is falsy; `DedupeSent` and `DedupeMarks` state how it is used |
| TeamupReminder.NumericSubcalendarMatches | src/utils/teamupReminder.js:142-143 | a positive numeric sub-calendar id is compared through `String`: its key is its decimal digits, so it matches the same digits configured as text |
| TeamupReminder.CalName | src/utils/teamupReminder.js:163-169 | `subcalendar_name` wins; without it, the sub-calendar's name, else its title; with none of these the name is the category in upper case, or `"Event"` for `"all"`; it is empty only for an empty category |
| TeamupReminder.Where | src/utils/teamupReminder.js:171-175 | the "Where" field is present iff `location` or `who` is non-empty; it is then non-empty and is the parts present, joined by `" – "` |
| TeamupReminder.LeadShown | src/utils/teamupReminder.js:177 | the minutes shown are the nearest whole minute to `start - now`, halves rounded up |
| TeamupReminder.LeadShownBounds | src/utils/teamupReminder.js:177 | for a start inside the window the minutes shown lie in `0..leadMinutes` |
| TeamupReminder.ReminderFor | src/utils/teamupReminder.js:149-177 | a reminder carries the event's non-empty id and its start, the title or `"Untitled event"`, the calendar name `CalName` gives, the "Where" field `Where` gives, and the minutes `LeadShown` gives |
| TeamupReminder.Reminders | src/utils/teamupReminder.js:148-204 | one message per sent event, in order: the k-th is `ReminderFor` of the k-th event |
| TeamupReminder.Dedupe | src/utils/teamupReminder.js:148-151 | the dedupe loop as a function: an event with no id or a marked id is skipped, any other is marked and sent; `DedupeSent` and `DedupeMarks` state what it sends and marks |
| TeamupReminder.DedupeSent | src/utils/teamupReminder.js:148-151 | the loop sends a subsequence of the upcoming events; each has a non-empty id not marked before, and no two share an id |
| TeamupReminder.DedupeSendsFirst | src/utils/teamupReminder.js:148-151 | an event is sent iff it sits at a position of `upcoming` that holds the first event with its id in fetch order, and that id is non-empty and not marked before; of several events sharing an id, only the first is sent |
| TeamupReminder.DedupeSentIsFirst | src/utils/teamupReminder.js:148-151 | a sent event is at a position that holds the first event of `upcoming` with its id, and that id is non-empty and was not marked |
| TeamupReminder.DedupeFirstIsSent | src/utils/teamupReminder.js:148-151 | the first event of `upcoming` with a non-empty, unmarked id is sent |
| TeamupReminder.DedupeMarks | src/utils/teamupReminder.js:148-151 | after the loop the marked set is the old set plus every non-empty id in the window, which is also the old set plus the ids sent |
| TeamupReminder.TickSpec | src/utils/teamupReminder.js:99-204 | one whole tick from its inputs: the guard, the channel, the date range, the fetch, the category, the filter and the dedupe loop, in that order; `TickBookkeeping`, `TickProperties` and `TickMessages` state what it does |
| TeamupReminder.CompleteTick | src/utils/teamupReminder.js:148-204 | the end of a tick that reaches the loop: the dedupe over the upcoming events and one reminder per event sent |
| TeamupReminder.CompleteTickBookkeeping | src/utils/teamupReminder.js:148-151 | a tick that reaches the loop marks exactly the ids it sends, sends each id once and never one marked before |
| TeamupReminder.CompleteTickSends | src/utils/teamupReminder.js:148-151 | a tick that reaches the loop sends a subsequence of `upcoming` and marks the old set plus every id of `upcoming` |
| TeamupReminder.TickBookkeeping | src/utils/teamupReminder.js:99-151 | a tick that stops early sends nothing and marks nothing; every tick marks exactly the ids it sends, sends each id once, and never sends an id marked before |
| TeamupReminder.TickProperties | src/utils/teamupReminder.js:99-146 | a tick stops at the guard exactly when `enabled` or `channelId` is falsy; it throws on the date range exactly when it passes the guard and the channel resolves, but the clock or the window end is outside the range of `Date`; it completes exactly when the channel resolves, the dates are in range, the fetch succeeds and the category is usable; a completed tick sends, in fetch order, only events that pass the filter, and marks every id in the window |
| TeamupReminder.TickSendsFirstOfEachId | src/utils/teamupReminder.js:134-151 | in a completed tick an event is sent iff, among the events that pass the filter, it is the first in fetch order with its id, and that id is non-empty and was not marked before the tick |
| TeamupReminder.TickMessages | src/utils/teamupReminder.js:148-177 | the k-th message of a completed tick belongs to the k-th sent event: same id and start, the event's title or "Untitled event" when it has none, a start inside the window, a lead between 0 and the lead time, the event's calendar name, and a "Where" field exactly when the event has a location or participants |
| TeamupReminder.HugeLeadTimeThrows | src/utils/teamupReminder.js:113-118 | a lead time of 10^12 minutes puts the window end outside the range of `Date`, so the tick throws before the fetch and sends nothing |
| TeamupReminder.Run | src/utils/teamupReminder.js:98-205 | ticks one after another in one process, each starting from the marked set the last one left, ending at a tick that throws |
| TeamupReminder.ThrowEndsRun | src/utils/teamupReminder.js:98-205 | a tick that throws ends the run: nothing is sent and the marked set is the one it started with |
| TeamupReminder.RunSendsEachIdOnce | src/utils/teamupReminder.js:148-151 | across any sequence of ticks of one process, no id is sent twice, none marked at the start is sent, and the marked set grows by exactly the ids sent |
| TeamupReminder.ChannelFailureLeavesNoTrace | src/utils/teamupReminder.js:106-111 | a configured tick whose channel cannot be resolved changes nothing, so a following tick behaves as if it had not happened |
| TeamupReminder.ReminderScheduler.constructor | src/utils/teamupReminder.js:22 | the marked set starts empty |
| TeamupReminder.ReminderScheduler.Tick | src/utils/teamupReminder.js:99-204 | the exit, the new marked set, the events sent and their messages are those of `TickSpec` on the old marked set; an early exit sends nothing and marks nothing; the set grows by exactly the ids sent, with no id sent twice and none marked before |
| TeamupReminder.ReminderScheduler.SendUpcoming | src/utils/teamupReminder.js:148-204 | the loop leaves the marked set and the sent events that `Dedupe` gives on the old set; every sent event has a start and an id; the messages are the reminders for the sent events, in order |
| TeamupSettings.ReadAllOf | src/utils/teamupSettings.js:7-14 | a parsed file reads as its map; a missing or corrupt one reads as `{}` |
| TeamupSettings.Lookup | src/utils/teamupSettings.js:21-24 | the lookup is `null` exactly when the guild has no record, and that record otherwise |
| TeamupSettings.Merge | src/utils/teamupSettings.js:28-29 | the merged record's keys are those of both records; keys of `partial` take `partial`'s values, and every other key keeps the current value |
| TeamupSettings.Put | src/utils/teamupSettings.js:26-31 | the written map adds at most the guild, gives it the merged record, and keeps every other guild's record |
| TeamupSettings.PutIdempotent | src/utils/teamupSettings.js:29 | writing the same partial record twice gives the same store as writing it once |
| TeamupSettings.PutCommutes | src/utils/teamupSettings.js:26-31 | writes to two different guilds commute |
| TeamupSettings.MergeAddsNoDefaults | src/utils/teamupSettings.js:28-29 | a key in neither record is not in the merge: no defaults are filled in |
| TeamupSettings.MergeExample | src/utils/teamupSettings.js:29 | `{leadMinutes: 30}` over `{enabled: true, channelId: "X"}` gives exactly those three fields |
| TeamupSettings.SettingsStore.constructor | src/utils/teamupSettings.js:5 | the store holds the given file |
| TeamupSettings.SettingsStore.ReadAll | src/utils/teamupSettings.js:7-14 | returns the stored map; a missing or corrupt file gives `{}` |
| TeamupSettings.SettingsStore.GetGuildSettings | src/utils/teamupSettings.js:21-24 | returns the guild's record, and `None` exactly when it has none |
| TeamupSettings.SettingsStore.SetGuildSettings | src/utils/teamupSettings.js:26-33 | the file becomes the old map with the guild's record merged; the returned record is the one stored, holds `partial`'s values and keeps the guild's other fields; other guilds are unchanged |
| TeamupSettings.SettingsStore.GetAllGuildSettings | src/utils/teamupSettings.js:35-37 | returns the entire stored map |
| TeamupSettings.SetThenGet | src/utils/teamupSettings.js:26-33 | what `setGuildSettings` returns is what a following `getGuildSettings` returns |
| TeamupSettings.WriteOverUnreadableFile | src/utils/teamupSettings.js:26-31 | a write over a missing or corrupt file leaves only the written guild, holding just `partial` |
| MrTeamup.Mention | src/commands/mr-teamup.js:74-76 | a channel is shown as `<#…>`, so it is never the text "not set" or "no channel set yet" |
| MrTeamup.ReminderMinutes | src/commands/mr-teamup.js:12 | the lead time reported is 15 when the variable is unset, and `Number` of its text otherwise |
| MrTeamup.WriteFor | src/commands/mr-teamup.js:58-88 | `set-channel` writes exactly `{channelId}`, `enable` exactly `{enabled: true}`, `disable` exactly `{enabled: false}`; `status` writes nothing |
| MrTeamup.ApplyAll | src/commands/mr-teamup.js:58-88 | the settings after a series of subcommands in one guild, applied in order; `ApplyAllFields` states what each field then holds |
| MrTeamup.RecordOf | src/commands/mr-teamup.js:90 | `getGuildSettings(guildId)`, or `{}`: the guild's record, or the empty record when it has none |
| MrTeamup.ReplyFor | src/commands/mr-teamup.js:45-103 | the reply is the server-only notice exactly when there is no guild; in a guild, `set-channel` names the given channel, `enable` names the stored channel or says none is set yet, `disable` gives its notice, an unrecognised subcommand gives no reply, and `status` reports ON iff the stored record's `enabled` is truthy, the stored channel or "not set" exactly when the record has no truthy `channelId` (whether or not the guild has a record), and the lead time from the environment |
| MrTeamup.Apply | src/commands/mr-teamup.js:58-88 | the settings after one subcommand: its one write, if any, merged into the guild's record; `SetChannelWritesOnlyChannel` and `ToggleWritesOnlyFlag` state its effect |
| MrTeamup.Execute | src/commands/mr-teamup.js:45-104 | outside a guild, and for `status`, the file is unchanged; otherwise it holds the one write applied to the old map; the reply is read off the settings the write leaves |
| MrTeamup.SetChannelWritesOnlyChannel | src/commands/mr-teamup.js:58-63 | after `set-channel` the channel is the one given and every other field is as before |
| MrTeamup.ToggleWritesOnlyFlag | src/commands/mr-teamup.js:69-83 | after `enable`/`disable` the flag is true/false and every other field, the channel included, is as before |
| MrTeamup.EnableReportsChannel | src/commands/mr-teamup.js:69-81 | `enable` names the channel already set, or says "no channel set yet" |
| MrTeamup.StatusWithoutRecord | src/commands/mr-teamup.js:89-93 | `status` for a guild with no record reports OFF and "not set" |
| MrTeamup.StatusLeadTimeIgnoresStore | src/commands/mr-teamup.js:89-102 | the lead time in `status` does not depend on the store, and is 15 when the variable is unset |
| MrTeamup.ApplyAllFields | src/commands/mr-teamup.js:58-88 | after any series of subcommands each field holds the last value written to it, or its old value; other guilds are untouched |
| MrTeamup.StatusAfterCommands | src/commands/mr-teamup.js:58-102 | after a series of subcommands `status` reports ON iff the last `enable`/`disable` was `enable` (or, with neither, iff it was ON before), and the channel of the last `set-channel` when that channel was non-empty, or "not set" when it was empty |
| MrPatchnotes.StripHtml | src/commands/mr-patchnotes.js:6-8 | `replace(/<[^>]*>/g, "")`: a `<` with a `>` after it starts a match running to the first such `>`, which is deleted; the lemmas below state its properties |
| MrPatchnotes.StripHtmlSubsequence | src/commands/mr-patchnotes.js:6-8 | stripping only deletes characters: the output is a subsequence of the input |
| MrPatchnotes.StripHtmlNoTag | src/commands/mr-patchnotes.js:6-8 | no `<` in the output is followed anywhere by a `>` |
| MrPatchnotes.StripHtmlFixpoint | src/commands/mr-patchnotes.js:6-8 | a string with no tag left is unchanged by stripping |
| MrPatchnotes.StripHtmlIdempotent | src/commands/mr-patchnotes.js:6-8 | stripping twice is stripping once |
| MrPatchnotes.StripHtmlWithoutAngle | src/commands/mr-patchnotes.js:6-8 | a string with no `<` is returned unchanged |
| MrPatchnotes.StripHtmlExample | src/commands/mr-patchnotes.js:6-8 | `"<i>x"` becomes `"x"`; a `<` with no `>` after it is kept |
| MrPatchnotes.SliceTo | src/commands/mr-patchnotes.js:84 | `slice(0, end)` is a prefix, of length `end` clamped to the list, with a negative `end` counted from the back |
| MrPatchnotes.Shorten | src/commands/mr-patchnotes.js:11-15 | `""` stays `""`; text within `max` is unchanged; longer text becomes its first `max - 3` characters and `"..."`, exactly `max` long |
| MrPatchnotes.PatchList | src/commands/mr-patchnotes.js:51-58 | an array is used as is; an object's array `formatted_patches` is used; anything else gives no patches |
| MrPatchnotes.Compare | src/commands/mr-patchnotes.js:71-82 | the comparator: two undated patches tie, an undated patch goes after a dated one, and two dated patches compare by `da - db`; `CompareConsistent` states its laws |
| MrPatchnotes.InsertBack | src/commands/mr-patchnotes.js:71-82 | one insertion step of the stable sort by `Compare`; `InsertBackPermutes` and `InsertBackSorted` state its properties |
| MrPatchnotes.InsertionSorted | src/commands/mr-patchnotes.js:71-82 | the order `patches.sort` leaves, as a stable insertion sort; `InsertionSortedOrder` states what it is |
| MrPatchnotes.CompareConsistent | src/commands/mr-patchnotes.js:71-82 | the comparator is antisymmetric and orders patches totally and transitively |
| MrPatchnotes.InsertBackPermutes | src/commands/mr-patchnotes.js:71-82 | inserting a patch adds it and loses nothing |
| MrPatchnotes.InsertBackSorted | src/commands/mr-patchnotes.js:71-82 | inserting into a sorted list keeps it sorted |
| MrPatchnotes.InsertionSortedOrder | src/commands/mr-patchnotes.js:71-82 | the sorted list is a permutation of the input with every dated patch before every undated one, and dated patches in ascending date order |
| MrPatchnotes.OldestShownFirst | src/commands/mr-patchnotes.js:70-84 | with `count` 1, of two dated patches the older one is shown, in whichever order the API lists them |
| MrPatchnotes.UndatedKeepOrder | src/commands/mr-patchnotes.js:76 | patches that all lack a date keep their order |
| MrPatchnotes.InsertionPoint | src/commands/mr-patchnotes.js:71-82 | the position found is the first from the right whose left neighbour does not compare greater than the inserted patch |
| MrPatchnotes.ShiftRight | src/commands/mr-patchnotes.js:71-82 | the block `a[j..i]` moves one place right, and nothing else changes |
| MrPatchnotes.InsertInto | src/commands/mr-patchnotes.js:71-82 | the first `i + 1` slots become the old prefix with `a[i]` inserted into it, and the rest is unchanged |
| MrPatchnotes.SortPatches | src/commands/mr-patchnotes.js:71-82 | the array ends up holding `InsertionSorted` of its old contents: a permutation in comparator order, dated patches first and ascending (`InsertionSortedOrder`) |
| MrPatchnotes.EffectiveCount | src/commands/mr-patchnotes.js:30 | a missing or zero count becomes 3, and any other count is used as is |
| MrPatchnotes.RawSummary | src/commands/mr-patchnotes.js:96-99 | the summary source is `previewText`, else `fullContent`, else the placeholder, and is never empty |
| MrPatchnotes.EntryFor | src/commands/mr-patchnotes.js:91-106 | the field for one patch of the slice; `EntryForFields` states what it shows |
| MrPatchnotes.EntryForFields | src/commands/mr-patchnotes.js:91-101 | a field is numbered `index + 1`; its title is the patch title or `Patch n`; the date part is `" (date)"` when there is a date and empty otherwise; its type is the patch type, or "Patch Notes" when there is none; its summary is at most 250 long, has no tag left, is all of the stripped text when that fits, and is the stripped text's first 247 characters followed by `...` when it does not |
| MrPatchnotes.Entries | src/commands/mr-patchnotes.js:91-107 | one field per shown patch |
| MrPatchnotes.EntriesAt | src/commands/mr-patchnotes.js:91-107 | the field at position `i` describes the `i`-th shown patch |
| MrPatchnotes.DescribePatches | src/commands/mr-patchnotes.js:91-107 | the loop builds exactly the fields `Entries` gives for the slice |
| MrPatchnotes.Shown | src/commands/mr-patchnotes.js:71-84 | the patches shown: the first `count` (or 3) of the sorted list, by `slice(0, count)` |
| MrPatchnotes.PatchNotesReply | src/commands/mr-patchnotes.js:29-109 | the reply as a function of the count and the fetch outcome: the fetch error, "no patch notes" for an empty list, or the numbered fields of the shown patches; `PatchNotesReplyCases` and `PatchNotesFields` state its cases |
| MrPatchnotes.PatchNotes | src/commands/mr-patchnotes.js:29-109 | fetch, extraction, in-place sort, slice and fields give exactly `PatchNotesReply` |
| MrPatchnotes.PatchNotesReplyCases | src/commands/mr-patchnotes.js:35-68 | the reply is the fetch error iff the fetch failed, and "no patch notes" iff the extracted list is empty |
| MrPatchnotes.PatchNotesFields | src/commands/mr-patchnotes.js:30-107 | with patches, the reply holds `min(count, patches)` fields numbered from 1, each summary at most 250 long, drawn from the list in sorted order |
| MrBuildMyTeam.RoleText | src/commands/mr-build-my-team.js:39 | the role text is `String` of the role in lower case when the role is truthy, whatever its type, else `String` of the class in lower case when that is truthy, and empty when neither is |
| MrBuildMyTeam.Classify | src/commands/mr-build-my-team.js:39-46 | a hero is front line iff its role text contains "tank" or "front"; support iff not, and it contains "support" or "heal"; damage otherwise |
| MrBuildMyTeam.ClassifyIgnoresCase | src/commands/mr-build-my-team.js:39-40 | the role `"TANK"` is front line |
| MrBuildMyTeam.ClassifyFallsBackToClass | src/commands/mr-build-my-team.js:39-42 | with no role, `class: "heal"` makes a support hero |
| MrBuildMyTeam.ClassifyFrontWins | src/commands/mr-build-my-team.js:40-42 | a role naming both front line and support is front line |
| MrBuildMyTeam.ClassifyArrayRole | src/commands/mr-build-my-team.js:39-41 | a role given as the array `["Tank"]` reads as `"tank"`, so the hero is front line |
| MrBuildMyTeam.ClassifyDefaultsToDamage | src/commands/mr-build-my-team.js:39-46 | a hero with neither role nor class is damage |
| MrBuildMyTeam.Bucket | src/commands/mr-build-my-team.js:34-47 | a group holds exactly the positions of the heroes classified into it, in list order |
| MrBuildMyTeam.Roles | src/commands/mr-build-my-team.js:38-47 | each hero's group, position by position |
| MrBuildMyTeam.BucketsPartition | src/commands/mr-build-my-team.js:38-47 | the three group sizes add up to the number of heroes |
| MrBuildMyTeam.Partition | src/commands/mr-build-my-team.js:34-47 | the `forEach` builds exactly the three groups |
| MrBuildMyTeam.PickOrder | src/commands/mr-build-my-team.js:49-52 | at most three picks: one per non-empty group, and none for an empty one |
| MrBuildMyTeam.PickedRoles | src/commands/mr-build-my-team.js:49-52 | a group is picked from iff it has a hero |
| MrBuildMyTeam.PickOne | src/commands/mr-build-my-team.js:5-7 | an empty group gives no pick; otherwise a single member of the group |
| MrBuildMyTeam.PickFromGroups | src/commands/mr-build-my-team.js:49-52 | before the fill, the team holds one distinct hero from each non-empty group, front line, damage and support in that order |
| MrBuildMyTeam.FreeIndex | src/commands/mr-build-my-team.js:54-58 | while the team is short, a list of three or more heroes has one not yet chosen, so the fill can always progress |
| MrBuildMyTeam.FillTeam | src/commands/mr-build-my-team.js:54-58 | the fill ends with exactly three distinct heroes of the list and keeps the picks in front |
| MrBuildMyTeam.AssembleTeam | src/commands/mr-build-my-team.js:49-58 | the team has three distinct heroes of the list, the first of them one from each non-empty group |
| MrBuildMyTeam.TeamCoversGroups | src/commands/mr-build-my-team.js:49-52 | every non-empty group has a hero in the team |
| MrBuildMyTeam.SlotFor | src/commands/mr-build-my-team.js:64-70 | a slot is numbered `i + 1`; it shows the hero's name or `Hero n`, and the role, else the class, else "Unknown role" |
| MrBuildMyTeam.DescribeTeam | src/commands/mr-build-my-team.js:64-71 | one slot per team member, in team order |
| MrBuildMyTeam.SuggestTeam | src/commands/mr-build-my-team.js:14-73 | a failed fetch, and a non-array or fewer than three heroes, each get their own reply, and only then; otherwise a team of the shape `AssembleTeam` promises, with its three slots |

## Left out

- HTTP fetches: `fetchTeamupEvents`, `getPatchNotes` and `getHeroes` are network I/O. Each is an input outcome: the events or an error, the response body or an error, the hero list, a non-array, or an error. The fetch's date-only query range is not modelled.
- Timer and concurrency: the `setInterval` timer, the poll period and overlapping asynchronous ticks are not modelled. One tick is one call, and `Run` chains ticks one after another.
- Process lifetime: `Run` covers one process and stops at a tick that throws. Whether something outside the program restarts the process, which then starts again from an empty marked set, is not modelled.
- Embed validation: `EmbedBuilder` throws when a title exceeds 256 characters or a field value exceeds 1024, counted in UTF-16 units, with limits that depend on the discord.js version. In the tick that throw would come after `src/utils/teamupReminder.js:151` has marked the id, so the id would stay marked without being sent, and the process would end before the remaining events. In the commands it would reach the bot's dispatcher, which replies with an error message. The model takes every embed as accepted.
- TeamupReminder.TickBookkeeping: "marks exactly the ids it sends" holds when every embed is accepted; an embed that fails validation leaves its id marked and unsent (see the line above).
- Discord: channel resolution is an input (`ChannelLookup`). `channel.send` is the returned messages, and its caught failure has no effect on the state. Embed titles, colours, timestamps, the role ping, interaction replies and option validation are not modelled. Option validation covers the count range, channel types and permissions.
- Dates: `new Date(...)` is given as data, as `Event.start` (`None` when invalid) and `Patch.dateMs`. The "When (UTC)" text is not modelled. A patch date string that parses to an invalid date is not modelled either (the comparator would then see `NaN`).
- `JsValues.ToNumber`: strings, and the text of an array, are read only as plain decimal digits. Signs, fractions, exponents, whitespace and hexadecimal forms are not modelled, and so `LeadMinutes` never sees a fractional value. `Number(["-5"])`, for example, is NaN in the model and -5 in JavaScript.
- `JsValues.ToStr`: an object other than an array is always `"[object Object]"`; JSON objects have no `toString` of their own, so this is what the engine gives. Numbers are integers, so fractional and exponent forms are not modelled.
- Case and length: `toLowerCase`/`toUpperCase` convert only ASCII letters. String lengths count characters, not UTF-16 code units.
- `CATEGORY_TO_ID` is a map of the configured ids. Lookups of inherited object keys such as `"constructor"` are not modelled.
- Field types: event ids, titles and the other event text fields are strings, with `""` for absent; other JSON types there are not modelled. Patch text fields that are not strings are modelled as `""`.
- Settings file: content that is valid JSON but not an object is not modelled. Exceptions from `writeAll` are not modelled either; the file is an in-memory value.
- Randomness: `pickRandom` is a nondeterministic choice from the group. The fill loop is modelled by its successful draws: each adds some hero not yet in the team. A draw of a hero already chosen changes nothing and is left out, and termination of random drawing is not modelled.
- `MrBuildMyTeam`: a hero is identified by its position in the fetched list. That is what `team.includes` compares when the list's elements are objects, since every parsed object is distinct. Lists whose elements are not objects are not modelled. For equal primitives, such as `[1, 1, 2]`, `includes` compares values, so the fill loop at lines 54-58 can never add a third hero and never ends.
- `MrPatchnotes.SortPatches`: the engine's sorting algorithm is replaced by a stable insertion sort. `Array.prototype.sort` is stable, and `CompareConsistent` shows the comparator is a total preorder, so the resulting order is the same. The engine's sequence of comparator calls is not modelled.
- The other commands are not part of this model: `stats`, `mr-events`, `mr-news`, `mr-matches`, `mr-heroes`, `mr-hero-leaderboard`, `mr-hero-roulette`, `mr-quiz`, `mr-schedule`, `coinflip` and `ping`. The same holds for the bot's dispatch and command deployment.
