# statusbot report ledger, modelled in Dafny

This project models the core of a Slack bot that tracks daily status reports.
The bot records the display name of everyone who posts in the status channel.
At the end of the day it posts a summary: who reported and which channel
members did not. The model covers two Go files:

- `status/util/utils.go` becomes module `Util` (`utils.dfy`):
  - `ConnectValues` joins names for display.
  - `NotReportedUsers` reconciles the reported names against the roster.
  - `GetUserFromMessage` extracts the reporting identity from a message.
  - `ReadIgnored` parses the ignore list.
  - `IsWeekend` is the weekend gate.
- `status/slack.go` becomes module `Status` (`slack.dfy`). The class `StatusBot` has:
  - the `reports` ledger, a field that the methods update in place;
  - the `ignored` map, fixed at construction.

  Its methods model `reportUserStatus`, `getReportedUsers`,
  `handleUserStatusUpdate`, `backfillData`, the decisions of
  `sendSummaryMessage`, and the backfill step of `NewStatusBot`.

Two small support modules complete the project:

- `Calendar` (`calendar.dfy`) models the parts of Go's `time` package the bot
  uses: `Weekday()` on a proleptic Gregorian date, and the `"2006-01-02"`
  layout of the Date field.
- `Wrappers` (`wrappers.dfy`) defines `Option`.

The Slack calls are parameters:

- `GetUserInfo` is a lookup that yields the display name, or `None` when the
  call fails. The live handler takes the outcome of its one call as a function
  `string -> Option<string>`. The backfill makes one call per history message,
  so its lookup is a function `(nat, string) -> Option<string>` keyed by the
  message's position. Two messages from the same user can therefore resolve
  differently, as separate Slack calls can.
- The history fetch is an `Option<seq<Message>>`. `None` means the fetch failed.
- The roster is a `seq<string>`. A failed roster fetch gives Go's `nil`, which
  behaves as the empty sequence.
- `time.Now()` is a `Calendar.Date`.
- The message to post is the method's `Option<seq<Field>>` result.

Go map `reports map[string]bool` only ever stores `true`, so the ledger is a
`set<string>`. `ignored` stays a `map<string, bool>`: looking up a missing name
gives Go's zero value `false` (`Status.IsIgnored`).

Where the code behaves differently from what its names suggest, the model follows
the code:

- `GetUserFromMessage` does not search for the two-character token `"<@"`.
  `strings.IndexAny(text, "<@")` finds the first `'<'` or `'@'`. A lone `'@'`
  therefore opens a mention, and the character after it is dropped. With
  neither character present, the start index is -1 and the span starts at
  index 1. `Util.ExtractsAfterMarker` and `Util.ExtractsWithoutMarker` state
  both cases.
- The ledger records whatever display name the lookup returns, even `""`. The
  code never filters empty identities.
- The roster is not filtered by the ignore list. An ignored member who is in
  the channel is listed as not having reported (`Status.NotReportedAfterReplay`).
- `ConnectValues` trims every trailing `','` and `' '`, including ones that
  belong to the last name itself. It can also return `""` for a non-empty list,
  for example `[""]`.
- The ignore list is split on `','` without trimming. So `"a, b"` ignores
  `"a"` and `" b"`.

A Go string is a sequence of bytes. The model reads a string as that
sequence, one element per byte, and never decodes text. Every string the bot
handles is then a byte string: each element's code is below 256
(`Util.IsByteString`). A multi-byte UTF-8 character is several elements, so
every index, length and slice counts bytes exactly as Go's do. The types do not
enforce this reading, and no contract requires it. Every lemma holds for all
character sequences, so it holds for byte strings in particular. For example,
the text `"<ü>"` is the bytes `'<'`, `0xC3`, `0xBC`, `'>'`. The byte after the
marker is skipped, so the extracted identity is the lone byte `0xBC`
(`Util.ByteOffsetAfterMarker`).

## Model

| member | source | states |
|---|---|---|
| `Util.Join` | status/util/utils.go:9 | `strings.Join`: the values with the separator between neighbours, `""` for none; the first value is a prefix of the result |
| `Util.TrimRight` | status/util/utils.go:10 | the result is the longest prefix of the input that does not end in a cutset character; everything removed is cutset characters |
| `Util.ConnectValues` | status/util/utils.go:8-11 | the result is a prefix of the `", "`-join of the values, never ends in `','` or `' '`, and only those characters are cut off |
| `Util.JoinEndsWithLast` | status/util/utils.go:9 | the joined string ends with the last value |
| `Util.ConnectValuesKeepsJoin` | status/util/utils.go:8-11 | when the last value is non-empty and does not end in `','` or `' '`, the result is exactly the `", "`-join |
| `Util.ConnectValuesEmpty` | status/util/utils.go:8-11 | an empty list gives `""` |
| `Util.ConnectValuesExample` | status/util/utils_test.go:10-13 | `["abc 123","xyz 345","ghy 23"]` gives `"abc 123, xyz 345, ghy 23"` |
| `Util.NotReportedUsers` | status/util/utils.go:13-27 | the result is the roster filtered through the set of reported names in roster order; a name is in it iff it is present and did not report |
| `Util.Unreported` | status/util/utils.go:19-26 | the reference filter: the roster names not among the reported, in roster order with repeats kept; never longer than the roster |
| `Util.UnreportedMembership` | status/util/utils.go:20-25 | a name is listed iff it is in the roster and not among the reported |
| `Util.UnreportedMultiplicity` | status/util/utils.go:20-25 | each unreported roster name keeps its multiplicity; reported names occur zero times |
| `Util.UnreportedOrder` | status/util/utils.go:19-26 | the result is a subsequence of the roster, so it keeps its order and is no longer |
| `Util.NotReportedUsersExample` | status/util/utils_test.go:15-20 | the test's roster and reports give `["kjl","xxd123"]` |
| `Util.IndexAny` | status/util/utils.go:33-34 | the first index holding any of the characters, or -1 exactly when none occurs |
| `Util.GetUserFromMessage` | status/util/utils.go:29-40 | a non-empty sender is returned unchanged; with an empty sender the result never contains `'>'`, and is `""` when the text has no `'>'`; the slice is always in bounds |
| `Util.MentionSpan` | status/util/utils.go:33-39 | with an empty sender, the result is the text from two past the first `'<'`/`'@'` (position -1 if none) up to the first `'>'` when that span is non-empty, else `""` |
| `Util.ExtractsAfterMarker` | status/util/utils.go:33-37 | the identity after the first marker character and one more character, up to `'>'`, is returned; for `"<@id>"` that is the mentioned id |
| `Util.ExtractsWithoutMarker` | status/util/utils.go:33-37 | with no `'<'` or `'@'` in the text, the result is what lies between index 1 and the first `'>'` |
| `Util.ByteOffsetAfterMarker` | status/util/utils.go:33-37 | for the bytes of `"<ü>"` the result is the byte `0xBC`: the skipped character after the marker is one byte of a two-byte character |
| `Util.ByteOffsetWithoutMarker` | status/util/utils.go:33-37 | for the bytes of `"éllo>"` the result starts with the byte `0xA9`: the span starts at byte 1, inside the first character |
| `Util.GetUserFromMentionExample` | status/util/utils_test.go:26-27 | `"Submission from <@U01J9JZQZ8G>"` with an empty sender gives `"U01J9JZQZ8G"` |
| `Util.GetUserFromMessageExamples` | status/util/utils_test.go:22-31 | a given sender wins; `"Submission from someone"` gives `""` |
| `Util.Split` | status/util/utils.go:44 | at least one piece, and no piece contains the separator |
| `Util.JoinSplit` | status/util/utils.go:44 | joining the pieces with the separator gives back the string |
| `Util.ReadIgnored` | status/util/utils.go:42-49 | the keys are exactly the untrimmed comma-separated pieces, every value is true, and no key contains `','` |
| `Util.ReadIgnoredEmpty` | status/util/utils.go:42-49 | the empty configuration yields `{"": true}` |
| `Util.IsWeekend` | status/util/utils.go:51-53 | true exactly when `WeekdayOf` the date is Saturday or Sunday |
| `Util.WeekendGate` | status/util/utils.go:51-53 | the day after a Friday is a weekend day, and the day after a Sunday is not |
| `Util.IsWeekendExamples` | status/util/utils_test.go:33-45 | 2022-01-01 and 2022-01-02 are weekend days; 2022-01-03 is not |
| `Calendar.WeekdayOf` | status/util/utils.go:52 | `t.Weekday()`: the weekday of a date, counted in days from the Thursday 1970-01-01 in the proleptic Gregorian calendar |
| `Calendar.YearLength` | status/util/utils.go:52 | a year counted from March has 366 days exactly in leap years, so weekdays follow the Gregorian calendar |
| `Calendar.NextDayCount` | status/util/utils.go:52 | the day count goes up by exactly one from each valid date to the next, across month, leap-day and year ends |
| `Calendar.NextDayWeekday` | status/util/utils.go:52 | each valid date's successor falls on the next weekday |
| `Calendar.PaddedInt` | status/slack.go:194 | Go's padded integer field: a `'-'` exactly for negative numbers, then the digits zero-padded to at least `width` characters |
| `Calendar.FormatDate` | status/slack.go:194 | `Format("2006-01-02")`: year padded to 4, month and day padded to 2, joined by dashes; at least ten characters |
| `Calendar.PaddedIntRoundTrip` | status/slack.go:194 | a zero-padded non-negative field is all digits and reads back as its number |
| `Calendar.FormatDateLayout` | status/slack.go:194 | for years 0 to 9999, `"2006-01-02"` gives ten characters with dashes at positions 4 and 7, and the fields read back as year, month and day |
| `Status.IsIgnored` | status/slack.go:131 | `b.ignored[user]`: true only for a name present in the map with value true; a missing name reads as Go's zero value `false` |
| `Status.Recorded` | status/slack.go:129-136 | the ledger after one report: it only grows, by at most the reported name, and holds that name exactly when it already did or the name is not ignored |
| `Status.Handled` | status/slack.go:116-127 | the ledger after one handled message: a failed lookup leaves it unchanged, otherwise it grows by at most the looked-up name |
| `Status.Replayed` | status/slack.go:231-236 | the ledger after handling a history in order, each message with its own lookup; it never loses a name |
| `Status.RecordedSpec` | status/slack.go:129-136 | after a report the ledger holds the old names plus the reported one, unless that name is ignored |
| `Status.RecordedIdempotent` | status/slack.go:134-136 | reporting the same name twice equals reporting it once |
| `Status.RecordedCommutes` | status/slack.go:129-136 | the order of two reports does not matter |
| `Status.ReplayedAppend` | status/slack.go:231-236 | replaying two batches in turn is replaying their concatenation, with the second batch's lookups renumbered to its positions in the whole history |
| `Status.ReplayedMembership` | status/slack.go:220-238 | after a replay a name is recorded iff it was already, or it is not ignored and the lookup for some message resolved to it; each message has its own lookup, and a failed lookup skips only that message |
| `Status.ReportedField` | status/slack.go:179-184 | `"No one reported status"` for an empty snapshot, otherwise a prefix of the `", "`-join of the snapshot (its trimmed join) |
| `Status.SummaryFields` | status/slack.go:190-204 | exactly three fields, in order Date (the formatted date), reported, not reported, with the source's titles |
| `Status.SummaryAccountsForRoster` | status/slack.go:186-187 | every roster member is either in the snapshot or listed as not reported, never both, and only roster members are listed |
| `Status.NotReportedAfterReplay` | status/slack.go:186-187 | after a replayed day, a roster member is listed as not reported iff no message resolved to them or they are ignored |
| `Status.StatusBot.constructor` | status/slack.go:32-53 | the ledger starts empty and is then backfilled; a failed history fetch leaves it empty and construction goes on |
| `Status.StatusBot.ReportUserStatus` | status/slack.go:129-138 | an ignored name leaves the ledger unchanged; any other name is added and nothing else changes; no ignored name is ever recorded |
| `Status.StatusBot.GetReportedUsers` | status/slack.go:140-151 | returns every recorded name exactly once, with no duplicates, in unspecified order, and leaves the ledger empty |
| `Status.StatusBot.HandleUserStatusUpdate` | status/slack.go:116-127 | resolves the identity, looks up its display name with one call, and reports it; a failed lookup leaves the ledger unchanged |
| `Status.StatusBot.BackfillData` | status/slack.go:220-239 | replays every history message in order through the handler, with a separate lookup per message; a failed fetch reports failure and leaves the ledger unchanged |
| `Status.StatusBot.SendSummaryMessage` | status/slack.go:175-218 | drains the ledger on every day; on weekdays posts the Date, reported and not-reported fields in that order; the reported field is `"No one reported status"` for an empty snapshot and the joined snapshot otherwise; the not-reported field joins the roster minus the snapshot; on weekends nothing is posted |
| `Status.ReportThenDrain` | status/slack.go:129-151 | from any ledger, after a name that is not ignored is reported twice, the snapshot holds the old names plus that name, the name exactly once, and a second snapshot right after it is empty |

## Left out

- Slack transport: the socket-mode client, `Run`'s event loop, `Ack` and `handleEventMessage`'s event-type switch (status/slack.go:64-114). These are network I/O and type assertions on library types.
- Foreign calls: `GetUserInfo`, `GetUsersInConversation`, `GetConversationHistory` and `PostMessage` appear only as inputs and outputs. `getChannelUsers` (status/slack.go:153-173) is not modelled. Its roster is an input, and its all-or-nothing failure is given as the empty roster that its `nil` result behaves as.
- `sync.Mutex` and concurrency. The ledger is modelled sequentially. The claim that a snapshot-and-clear is atomic with respect to concurrent reports is not modelled.
- `gocron` scheduling at 23:55, and the log line when scheduling fails.
- Wall-clock time:
  - `time.Now()` is one date parameter. The source reads the clock twice, once for the weekend gate and once for the Date field. The model does not capture those two reads falling on different days.
  - Time zones are not modelled. The date is the calendar date in whatever location `time.Now()` reports.
  - The backfill window's `Truncate`/Unix arithmetic and the 1000-message limit are not modelled. The fetched history is an input.
- `Status.StatusBot.SendSummaryMessage`: the attachment's text and colour, and the error that a failed `PostMessage` returns, are not modelled. The scheduled closure discards that error. Logging is left out throughout.
- `Status.StatusBot.HandleUserStatusUpdate`: the Go function's `error` result is not modelled. It is always `nil`, so `backfillData`'s error branch for it never runs.
- `Calendar.FormatDateLayout` states the layout only for years 0 to 9999. `PaddedInt` models Go's formatting for every year, including the sign.
- cmd/bot.go is not part of this model. It reads environment variables and parses the debug flag, and its only logic is calling `ReadIgnored`.
