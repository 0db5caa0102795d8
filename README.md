# Polls plugin core, modelled in Dafny

This project models the core of a Minecraft server plugin that runs chat
polls. A player opens a **creation session** and fills in its fields: a
code, a question, a duration and up to six option slots. Fields are filled
from chat, with the session's `awaiting` tag naming the field the next chat
line fills. Publishing the session turns it into an open **poll** with a
close timer. Players vote once per poll. Closing a poll tallies the ballots
into no votes, a tie or a winner.

Each core component is its own module:

| module | file | models |
|---|---|---|
| `Common` | common.dfy | Java string helpers: `trim`, `isBlank`, ASCII lower-casing, `String.join(" ", …)`, decimal numerals, `Integer.parseInt` |
| `Durations` | durations.dfy | `DurationUtil`: the `[Nd][Nh][Nm][Ns]` grammar and its parser |
| `Ordinals` | ordinals.dfy | `OrdinalUtil.toOrdinal`, with Java's truncating `%` |
| `Polls` | poll.dfy | `Poll` as a class with setters; `PollDraft` as a datatype |
| `Sessions` | poll_creation_session.dfy | `PollCreationSession` as a class; `getDefinedOptions` as a function |
| `Scheduling` | scheduling.dfy | timer handles: a map from owner to handle, with cancel as removal |
| `SessionManagement` | session_manager.dfy | `SessionManager`: sessions, drafts, books marked open, and the reopen timers with their tick |
| `ChatInput` | chat_listener.dfy | `ChatListener.onChat` |
| `Storage` | json_poll_storage.dfy | `JsonPollStorage` over its three maps, plus the tally and the newest-first order |
| `Lifecycle` | poll_manager.dfy | `PollManager`: publish, close timers, close, outcome, vote, remove, shutdown |
| `Commands` | poll_command.dfy | the `/poll` handlers; replies become result values |
| `Messages` | message_service.dfy | `MessageService.apply` and `formatRelativeTime` |

Things outside the model become parameters:

- **The clock** is a `now` argument wherever the source reads `Instant.now()`.
- **UUID parsing** (`UUID.fromString`) is a `UuidParser`: a function from text to an optional id.
- **The MiniMessage sanitiser** is a `string -> string` argument.
- **A new poll's random UUID** is a `freshId` argument.
- **The schedulers** hand out handles. A handle that is running is in a set, and cancelling a timer removes its handle.

Where the source throws, the model returns a result instead:

- `List.set` with a bad index throws `IndexOutOfBoundsException`. `PollCreationSession.SetOption` reports `false` and changes nothing.
- `onChat` then reports `SlotOutOfRange`. The line is still consumed, because the event was cancelled before the write.
- `announceResults` looks up the winning option in the poll's options. That lookup throws when a poll was edited to fewer options after a ballot for a later option was cast. `Lifecycle.Announce` returns `WinnerNotAnOption` in that case.
- `Lifecycle.WinnerIsAnOption` proves this cannot happen while every ballot names an existing option.

Editing an open poll pre-fills the duration with `max(0, closesAt - now)`. Re-publishing an edit whose close time has already passed gives a duration of 0. The poll is then stored as open but is not open at `now`, and its timer fires after one tick. `Lifecycle.PublishedIsOpen` therefore requires a positive duration.

## Model

| member | source | states |
|---|---|---|
| Common.TrimOfTrimmed | src/main/java/com/ssquadteam/polls/util/DurationUtil.java:15 | trimming text that has no leading or trailing character at or below ' ' returns it unchanged |
| Common.LowerIdempotent | src/main/java/com/ssquadteam/polls/service/SessionManager.java:83 | lower-casing twice is the same as lower-casing once, so a lower-cased code key is its own key |
| Common.DecimalRoundTrip | src/main/java/com/ssquadteam/polls/util/OrdinalUtil.java:8 | reading back the decimal numeral of n gives n |
| Common.ParseIntRoundTrip | src/main/java/com/ssquadteam/polls/commands/PollCommand.java:249 | parsing the decimal text of any integer, negative ones included, gives that integer back |
| Durations.ParseDurationSeconds | src/main/java/com/ssquadteam/polls/util/DurationUtil.java:13-24 | blank text gives no duration; every duration returned is strictly positive |
| Durations.ParseAcceptsOnlyGrammar | src/main/java/com/ssquadteam/polls/util/DurationUtil.java:11-22 | an accepted text is non-blank and, once trimmed and lower-cased, is the rendering of well-formed d/h/m/s groups in that order; the result is days*86400 + hours*3600 + minutes*60 + seconds, with absent groups counted as 0 |
| Durations.ParseAcceptsGrammar | src/main/java/com/ssquadteam/polls/util/DurationUtil.java:11-28 | conversely, every non-blank text that trims and lower-cases to such a rendering with a positive total is accepted with exactly that total |
| Durations.ZeroTotalRejected | src/main/java/com/ssquadteam/polls/util/DurationUtil.java:23 | a text of the grammar whose total is 0 gives no duration |
| Durations.ScanComplete | src/main/java/com/ssquadteam/polls/util/DurationUtil.java:11 | the scanner recognises every rendering of well-formed groups and recovers the groups |
| Durations.ScanSound | src/main/java/com/ssquadteam/polls/util/DurationUtil.java:11 | whatever the scanner accepts is the rendering of the well-formed groups it returns |
| Durations.ExampleDaysHoursMinutes | src/main/java/com/ssquadteam/polls/util/DurationUtil.java:18-23 | "1d2h30m" gives 95400 |
| Durations.ExampleMinutes | src/main/java/com/ssquadteam/polls/util/DurationUtil.java:18-23 | "45m" gives 2700 |
| Durations.ExampleTrimmedUpperCase | src/main/java/com/ssquadteam/polls/util/DurationUtil.java:15 | " 2H " gives 7200: the text is trimmed and case is ignored |
| Durations.ExampleZero | src/main/java/com/ssquadteam/polls/util/DurationUtil.java:23 | "0s" gives no duration |
| Durations.ExampleInnerSpace | src/main/java/com/ssquadteam/polls/util/DurationUtil.java:11 | "2h 3m" gives no duration, because no separators are allowed |
| Durations.ExampleOutOfOrder | src/main/java/com/ssquadteam/polls/util/DurationUtil.java:11 | "3m2h" gives no duration, because the units must come in the order d, h, m, s |
| Ordinals.JavaRem | src/main/java/com/ssquadteam/polls/util/OrdinalUtil.java:5 | Java's `%` takes the sign of the dividend: in [0, b) for a non-negative a, in (-b, 0] for a negative one |
| Ordinals.ToOrdinal | src/main/java/com/ssquadteam/polls/util/OrdinalUtil.java:4-13 | the output is the decimal form of n followed by exactly one of "st", "nd", "rd", "th" |
| Ordinals.OrdinalMatchesEnglishRule | src/main/java/com/ssquadteam/polls/util/OrdinalUtil.java:5-12 | for n ≥ 0, the remainder tests agree with the English rule read off the numeral's last two digits: a tens digit of 1 takes "th"; otherwise a last digit of 1, 2 or 3 takes "st", "nd" or "rd", and any other "th" |
| Ordinals.NegativeTakesTh | src/main/java/com/ssquadteam/polls/util/OrdinalUtil.java:5-12 | every negative n gets "th", because the truncating remainder is never 1, 2, 3 or 11..13 |
| Ordinals.SlotOrdinals | src/main/java/com/ssquadteam/polls/util/OrdinalUtil.java:4-13 | every single digit n, the option slots 1..6 among them, is prompted as its digit followed by "st" for 1, "nd" for 2, "rd" for 3 and "th" otherwise |
| Ordinals.TeenAndTwentyOrdinals | src/main/java/com/ssquadteam/polls/util/OrdinalUtil.java:4-13 | 11, 12 and 13 take "th" despite their last digit; 21 gives "21st"; 112 gives "112th" |
| Polls.Poll.constructor | src/main/java/com/ssquadteam/polls/model/Poll.java:17-24 | stores the given fields, with the options as a value copy; the code starts unset; id and createdAt are constants |
| Polls.Poll.SetCode | src/main/java/com/ssquadteam/polls/model/Poll.java:28 | sets the code; every other field is unchanged |
| Polls.Poll.SetQuestion | src/main/java/com/ssquadteam/polls/model/Poll.java:30 | sets the question; every other field is unchanged |
| Polls.Poll.SetOptions | src/main/java/com/ssquadteam/polls/model/Poll.java:32 | sets the options to a copy of the given list; every other field is unchanged |
| Polls.Poll.SetClosesAt | src/main/java/com/ssquadteam/polls/model/Poll.java:35 | sets the close time; every other field is unchanged |
| Polls.Poll.SetStatus | src/main/java/com/ssquadteam/polls/model/Poll.java:37 | sets the status; every other field is unchanged |
| Polls.Poll.IsOpen | src/main/java/com/ssquadteam/polls/model/Poll.java:39-41 | open means status OPEN and now < closesAt; a CLOSED poll is open at no time |
| Sessions.DefinedOptions | src/main/java/com/ssquadteam/polls/service/session/PollCreationSession.java:46-50 | the result is no longer than the slots and none of its entries is blank |
| Sessions.DefinedOptionsMembers | src/main/java/com/ssquadteam/polls/service/session/PollCreationSession.java:46-50 | a text is an option exactly when some slot holds it and it is not blank |
| Sessions.DefinedOptionsAppend | src/main/java/com/ssquadteam/polls/service/session/PollCreationSession.java:46-50 | the filter distributes over concatenation, so slot order is kept |
| Sessions.DefinedOptionsOfSlot | src/main/java/com/ssquadteam/polls/service/session/PollCreationSession.java:48 | one slot contributes its text exactly when it is set and not blank |
| Sessions.FillThenCollect | src/main/java/com/ssquadteam/polls/service/session/PollCreationSession.java:46-50 | slots filled in order from at most six non-blank texts give exactly those texts back |
| Sessions.PollCreationSession.constructor | src/main/java/com/ssquadteam/polls/service/session/PollCreationSession.java:24-27 | six empty slots, no code, question or duration, awaiting NONE with index -1, not editing |
| Sessions.PollCreationSession.SetCode | src/main/java/com/ssquadteam/polls/service/session/PollCreationSession.java:32 | only the code changes |
| Sessions.PollCreationSession.SetQuestion | src/main/java/com/ssquadteam/polls/service/session/PollCreationSession.java:36 | only the question changes |
| Sessions.PollCreationSession.SetDurationSeconds | src/main/java/com/ssquadteam/polls/service/session/PollCreationSession.java:40 | only the duration changes |
| Sessions.PollCreationSession.SetOption | src/main/java/com/ssquadteam/polls/service/session/PollCreationSession.java:44 | succeeds exactly for an index in 0..5 and then changes only that slot, leaving the awaited field as it was; otherwise nothing changes |
| Sessions.PollCreationSession.AwaitQuestion | src/main/java/com/ssquadteam/polls/service/session/PollCreationSession.java:56 | awaits QUESTION with index -1; the entries are unchanged |
| Sessions.PollCreationSession.AwaitDuration | src/main/java/com/ssquadteam/polls/service/session/PollCreationSession.java:58 | awaits DURATION with index -1; the entries are unchanged |
| Sessions.PollCreationSession.AwaitOption | src/main/java/com/ssquadteam/polls/service/session/PollCreationSession.java:60 | awaits OPTION with the index as given; the entries are unchanged |
| Sessions.PollCreationSession.AwaitCode | src/main/java/com/ssquadteam/polls/service/session/PollCreationSession.java:62 | awaits CODE with index -1; the entries are unchanged |
| Sessions.PollCreationSession.ClearAwaiting | src/main/java/com/ssquadteam/polls/service/session/PollCreationSession.java:64 | afterwards nothing is awaited and the index is -1, whatever the state before, so clearing is idempotent; the entries are unchanged |
| Sessions.PollCreationSession.PreviewClosesAt | src/main/java/com/ssquadteam/polls/service/session/PollCreationSession.java:66-69 | now plus the duration, or now when no duration is set |
| Sessions.PollCreationSession.StartEditing | src/main/java/com/ssquadteam/polls/service/session/PollCreationSession.java:73 | sets the editing flag and the target id; no session operation clears them |
| Scheduling.ValuesRemove | src/main/java/com/ssquadteam/polls/service/SessionManager.java:40-41 | removing an owner's entry removes exactly its handle from the running handles, when handles are not shared |
| Scheduling.ValuesAdd | src/main/java/com/ssquadteam/polls/service/SessionManager.java:135 | adding an owner without an entry adds exactly its handle |
| SessionManagement.SessionManager.constructor | src/main/java/com/ssquadteam/polls/service/SessionManager.java:20-27 | no sessions, timers, drafts or open books |
| SessionManagement.SessionManager.ScheduleAutoReopen | src/main/java/com/ssquadteam/polls/service/SessionManager.java:113-136 | when enabled, the player's earlier timer is cancelled and a new timer, distinct from all running ones, replaces it, so each player has at most one; when disabled nothing changes |
| SessionManagement.SessionManager.StartSession | src/main/java/com/ssquadteam/polls/service/SessionManager.java:29-34 | a fresh session, awaiting NONE and not editing, replaces any session of the player, and the reopen timer is rescheduled |
| SessionManagement.SessionManager.GetSession | src/main/java/com/ssquadteam/polls/service/SessionManager.java:36 | returns a session exactly when the player has one, and that session belongs to the player |
| SessionManagement.SessionManager.EndSession | src/main/java/com/ssquadteam/polls/service/SessionManager.java:38-42 | the player has no session and no reopen timer, and the timer it had is cancelled; nothing else changes |
| SessionManagement.SessionManager.AwaitQuestion | src/main/java/com/ssquadteam/polls/service/SessionManager.java:44-47 | the player's session, if any, awaits QUESTION, keeping its entries and its edit mark (whether it edits a stored poll, and which); a player without a session changes nothing; other sessions are unchanged |
| SessionManagement.SessionManager.AwaitCode | src/main/java/com/ssquadteam/polls/service/SessionManager.java:49-52 | as AwaitQuestion, for CODE, with the edit mark kept |
| SessionManagement.SessionManager.AwaitDuration | src/main/java/com/ssquadteam/polls/service/SessionManager.java:54-57 | as AwaitQuestion, for DURATION, with the edit mark kept |
| SessionManagement.SessionManager.AwaitOption | src/main/java/com/ssquadteam/polls/service/SessionManager.java:59-62 | as AwaitQuestion, for OPTION with the given index, with the edit mark kept |
| SessionManagement.SessionManager.GetDraft | src/main/java/com/ssquadteam/polls/service/SessionManager.java:86-88 | a draft is found exactly when one is saved under the lower-cased code, and it is that draft |
| SessionManagement.SessionManager.MarkBookOpened | src/main/java/com/ssquadteam/polls/service/SessionManager.java:64-66 | adds the player to the open-book set; nothing else changes |
| SessionManagement.SessionManager.MarkBookClosed | src/main/java/com/ssquadteam/polls/service/SessionManager.java:68-70 | removes the player from the open-book set; nothing else changes |
| SessionManagement.SessionManager.DraftOf | src/main/java/com/ssquadteam/polls/service/SessionManager.java:75-82 | the draft carries the session's code, creator and defined options |
| SessionManagement.SessionManager.SaveDraft | src/main/java/com/ssquadteam/polls/service/SessionManager.java:72-84 | a missing or blank code saves nothing; otherwise the draft is stored under the lower-cased code, replacing any draft there |
| SessionManagement.SessionManager.RemoveDraft | src/main/java/com/ssquadteam/polls/service/SessionManager.java:90-92 | the draft under the lower-cased code is gone, so no case variant finds it; nothing else changes |
| SessionManagement.SessionManager.LoadDraftIntoSession | src/main/java/com/ssquadteam/polls/service/SessionManager.java:94-111 | with no draft, nothing happens and the result is none; otherwise a fresh session holding the draft's code, question, duration and first min(6, n) options replaces the player's session, and the timer is rescheduled |
| SessionManagement.SessionManager.ReopenTick | src/main/java/com/ssquadteam/polls/service/SessionManager.java:122-134 | with no session the timer removes and cancels itself; otherwise the tick does nothing while a field is awaited (only-when-idle mode) or the player's book is open, and reopens the book only for an online player |
| SessionManagement.DraftRoundTrip | src/main/java/com/ssquadteam/polls/service/SessionManager.java:72-111 | saving a session as a draft and loading it back restores the code, question, duration and defined options, in order |
| SessionManagement.DraftLookupIgnoresCase | src/main/java/com/ssquadteam/polls/service/SessionManager.java:86-88 | two codes that differ only in letter case find the same draft |
| ChatInput.OnChat | src/main/java/com/ssquadteam/polls/listener/ChatListener.java:22-71 | the line is ignored exactly when the player has no session or nothing is awaited, and consumed otherwise. CODE stores the sanitised, trimmed line; QUESTION stores the line verbatim; DURATION stores the parsed seconds, or changes nothing when the line does not parse; OPTION writes the line into the awaited slot only. Each stored field clears the awaited tag; the session's edit mark is kept. Other players' sessions are unchanged |
| ChatInput.AcceptedDurationIsAhead | src/main/java/com/ssquadteam/polls/listener/ChatListener.java:53-56 | a duration accepted from chat puts the preview close time strictly after now |
| Storage.Tally | src/main/java/com/ssquadteam/polls/storage/JsonPollStorage.java:140-147 | the tallied option indexes are exactly those some ballot names, each with a count of at least 1 |
| Storage.TallyAdd | src/main/java/com/ssquadteam/polls/storage/JsonPollStorage.java:144 | a new ballot raises its option's count by one and leaves every other count alone |
| Storage.TallySumsToVoters | src/main/java/com/ssquadteam/polls/storage/JsonPollStorage.java:140-147 | the counts sum to the number of voters on the poll |
| Storage.InsertByCreation | src/main/java/com/ssquadteam/polls/storage/JsonPollStorage.java:115 | inserting into a newest-first list keeps it sorted and adds exactly that poll |
| Storage.JsonPollStorage.constructor | src/main/java/com/ssquadteam/polls/storage/JsonPollStorage.java:22-26 | all three maps are empty |
| Storage.JsonPollStorage.GetPoll | src/main/java/com/ssquadteam/polls/storage/JsonPollStorage.java:110 | finds a poll exactly when one is stored under the id, and it has that id |
| Storage.JsonPollStorage.FindByIdOrCode | src/main/java/com/ssquadteam/polls/storage/JsonPollStorage.java:150-158 | text that parses as a UUID is looked up by id only; other text is looked up, lower-cased, in the code index; otherwise none |
| Storage.JsonPollStorage.SavePoll | src/main/java/com/ssquadteam/polls/storage/JsonPollStorage.java:103-107 | an upsert keyed by id, so the poll is then found by its id; a poll with a code is indexed under the lower-cased code, so every case variant that is not a UUID finds it; ballots are untouched |
| Storage.JsonPollStorage.HasVoted | src/main/java/com/ssquadteam/polls/storage/JsonPollStorage.java:134-137 | true exactly when the poll's ballots hold one from the player; a poll without ballots has none |
| Storage.JsonPollStorage.RemovePoll | src/main/java/com/ssquadteam/polls/storage/JsonPollStorage.java:120-125 | the poll and its ballots are gone, and no code leads to its id; all other polls, ballots and codes stay |
| Storage.JsonPollStorage.SaveVote | src/main/java/com/ssquadteam/polls/storage/JsonPollStorage.java:128-131 | first writer wins: an existing ballot is never overwritten, and a new one is added; other polls' ballots are unchanged |
| Storage.JsonPollStorage.GetVoteTally | src/main/java/com/ssquadteam/polls/storage/JsonPollStorage.java:140-147 | the loop computes the tally of the poll's ballots, which is empty for a poll without ballots |
| Storage.JsonPollStorage.GetAllPolls | src/main/java/com/ssquadteam/polls/storage/JsonPollStorage.java:113-117 | a permutation of the stored polls, sorted newest first by creation time |
| Lifecycle.OutcomeUnique | src/main/java/com/ssquadteam/polls/service/PollManager.java:103-143 | a tally has exactly one outcome |
| Lifecycle.MaxCount | src/main/java/com/ssquadteam/polls/service/PollManager.java:114-119 | the largest count, 0 for an empty tally |
| Lifecycle.CollectLeaders | src/main/java/com/ssquadteam/polls/service/PollManager.java:120-125 | lists exactly the option indices with the largest count, each once: as many entries as leaders, every entry a leader, every leader present, no repeats |
| Lifecycle.ResolveOutcome | src/main/java/com/ssquadteam/polls/service/PollManager.java:103-134 | an empty tally gives NoVotes; more than one index with the largest count gives Tie(max); a single one gives Winner(index, max) |
| Lifecycle.LeaderExists | src/main/java/com/ssquadteam/polls/service/PollManager.java:134 | a non-empty tally has at least one index with the largest count, so `winners.get(0)` exists |
| Lifecycle.SoleLeader | src/main/java/com/ssquadteam/polls/service/PollManager.java:127-134 | a single leader has strictly more votes than every other index |
| Lifecycle.Announce | src/main/java/com/ssquadteam/polls/service/PollManager.java:106-142 | a winner that is an option is announced with that option's text; an index outside the options is reported |
| Lifecycle.WinnerIsAnOption | src/main/java/com/ssquadteam/polls/service/PollManager.java:135 | while every ballot names an option of the poll, the winner is one of its options |
| Lifecycle.ExampleTie | src/main/java/com/ssquadteam/polls/service/PollManager.java:127-132 | {0:3, 1:3, 2:1} gives Tie(3) |
| Lifecycle.ExampleWinner | src/main/java/com/ssquadteam/polls/service/PollManager.java:133-141 | {0:4, 1:2} gives Winner(0, 4) |
| Lifecycle.CloseDelayTicks | src/main/java/com/ssquadteam/polls/service/PollManager.java:87 | at least one tick, and twenty ticks per remaining second when the close time is ahead |
| Lifecycle.PollManager.constructor | src/main/java/com/ssquadteam/polls/service/PollManager.java:21-27 | no close timers |
| Lifecycle.PollManager.TrackOpenPoll | src/main/java/com/ssquadteam/polls/service/PollManager.java:86-92 | any earlier timer of the poll is cancelled and one new timer, distinct from all running ones, replaces it, with the close delay of the poll; no other poll's timer changes |
| Lifecycle.PollManager.CancelTimer | src/main/java/com/ssquadteam/polls/service/PollManager.java:97-98 | the poll's timer, if it has one, stops running and its entry leaves the map; no other timer changes |
| Lifecycle.PollManager.ClosePoll | src/main/java/com/ssquadteam/polls/service/PollManager.java:94-101 | the poll is CLOSED, never open again and saved under its id; its other fields, every ballot and every other code entry are kept, and its own code is indexed to it; its timer, and no other, is cancelled; the announcement comes from the outcome of its tally |
| Lifecycle.PollManager.RemovePoll | src/main/java/com/ssquadteam/polls/service/PollManager.java:145-149 | the poll's timer, and no other, is cancelled, and the poll, its ballots and exactly the code entries that lead to it are removed from storage; other polls, ballots and codes stay |
| Lifecycle.PollManager.Vote | src/main/java/com/ssquadteam/polls/service/PollManager.java:151-160 | `VoteOutcome`: in order: unknown poll, then not open, then already voted, then option out of range; the first failing check is reported, as an if-and-only-if each, and only when all pass is the ballot saved; a failed vote leaves every ballot as it was |
| Lifecycle.PollManager.Shutdown | src/main/java/com/ssquadteam/polls/service/PollManager.java:162-165 | every close timer is cancelled and the map emptied; storage is untouched |
| Lifecycle.PollManager.PublishFromSession | src/main/java/com/ssquadteam/polls/service/PollManager.java:31-84 | `PublishOutcome`: each failure is an if-and-only-if: fewer than two options, then a missing or blank code, then (new polls only) a code in use, then a missing edit target, then a CLOSED one; every failure writes nothing and keeps the session; on success (`PublishedState`) the poll carries the defined options and the code, is OPEN until now + duration (3600 when unset), is stored under its id and indexed under its lower-cased code with every ballot and every other poll kept, gets one fresh close timer replacing its old one, and the player's session and reopen timer end; an edit keeps id, createdAt and the old question when none is set; a new poll gets the fresh id, createdAt = now and "Untitled Poll" as the default question |
| Lifecycle.PollManager.PublishNew | src/main/java/com/ssquadteam/polls/service/PollManager.java:69-74 | the new poll gets the fresh id, createdAt = now, the session's question or "Untitled Poll", and is published as `PublishedState` states |
| Lifecycle.PollManager.PublishEdit | src/main/java/com/ssquadteam/polls/service/PollManager.java:52-68 | a missing target is reported exactly when the id is not stored, a CLOSED one exactly when it is stored and closed, each changing nothing; otherwise the stored target itself is rewritten, keeping its id and its question when none is set, and published as `PublishedState` states |
| Lifecycle.RewriteForEdit | src/main/java/com/ssquadteam/polls/service/PollManager.java:59-63 | the edited poll takes the given question, the defined options, the new close time, OPEN and the session's code |
| Lifecycle.PollManager.Commit | src/main/java/com/ssquadteam/polls/service/PollManager.java:65-75 | the poll is stored under its id and indexed under its code, with every ballot kept; one fresh close timer with the delay to its close time replaces any earlier one; the player's session and reopen timer end, and no other session, timer, draft or open book changes |
| Lifecycle.PublishedIsOpen | src/main/java/com/ssquadteam/polls/service/PollManager.java:47-62 | a poll published with a positive duration, or the default, is open at the time of publishing |
| Commands.SplitCreateArgs | src/main/java/com/ssquadteam/polls/commands/PollCommand.java:78-91 | a first argument that parses as a duration becomes the duration, and the rest, joined by single spaces, the question (none when there is no rest); otherwise all arguments joined become the question and there is no duration |
| Commands.CreateQuestion | src/main/java/com/ssquadteam/polls/commands/PollCommand.java:94 | a blank question is not set; a non-blank one is |
| Commands.CreateArgsWithDuration | src/main/java/com/ssquadteam/polls/commands/PollCommand.java:78-91 | "45m Best colour?" gives 2700 seconds with the question "Best colour?" |
| Commands.CreateArgsWithoutDuration | src/main/java/com/ssquadteam/polls/commands/PollCommand.java:78-91 | "Best colour?" gives no duration and the question "Best colour?" |
| Commands.EditKeyword | src/main/java/com/ssquadteam/polls/commands/PollCommand.java:211 | the four field keywords are recognised ignoring case; any other word names a poll |
| Commands.EditKeepsOptions | src/main/java/com/ssquadteam/polls/commands/PollCommand.java:224-225 | re-publishing an edit straight away keeps the poll's options, when it has at most six and none is blank |
| Commands.EditKeepsCloseTime | src/main/java/com/ssquadteam/polls/commands/PollCommand.java:219-223 | editing an open poll keeps its close time while that is ahead, and gives "now" once it has passed |
| Commands.PollCommand.HandleCreate | src/main/java/com/ssquadteam/polls/commands/PollCommand.java:73-95 | refused, changing nothing, exactly when the player has a session; otherwise the player gets a fresh session holding the duration and the non-blank question from the argument split, its reopen timer is rescheduled, and drafts and open books are kept |
| Commands.Prefill | src/main/java/com/ssquadteam/polls/commands/PollCommand.java:94-95 | the new session gets the question only when it is not blank, and the duration only when one was given; nothing else changes |
| Commands.PollCommand.HandleClose | src/main/java/com/ssquadteam/polls/commands/PollCommand.java:108-121 | no argument, or one that is not the UUID of a stored poll, is an error; an already CLOSED poll is reported closed without closing it again; an open one is closed as ClosePoll states (fields, ballots and other codes kept, its timer cancelled), and the announcement comes from the outcome of its tally |
| Commands.PollCommand.HandleRemove | src/main/java/com/ssquadteam/polls/commands/PollCommand.java:129-136 | any argument that parses as a UUID is removed, stored or not, as RemovePoll states (only its timer and the code entries leading to it go); otherwise an error and no change |
| Commands.PollCommand.HandleView | src/main/java/com/ssquadteam/polls/commands/PollCommand.java:166-172 | the stored poll with the given UUID, or an error |
| Commands.PollCommand.HandleVote | src/main/java/com/ssquadteam/polls/commands/PollCommand.java:180-186 | needs two arguments, a UUID and an integer, in that order of checks, each an if-and-only-if; then the reply carries the manager's vote result, with `VoteOutcome` for that id and index as given |
| Commands.PollCommand.HandlePublish | src/main/java/com/ssquadteam/polls/commands/PollCommand.java:192-194 | without a session, an error and no change; otherwise the reply carries the result of publishing the player's session, with `PublishOutcome` for that session |
| Commands.PollCommand.HandleCancel | src/main/java/com/ssquadteam/polls/commands/PollCommand.java:199-203 | ends the session and its reopen timer exactly when the player has one, keeping every other session, timer, draft and open book; otherwise no change |
| Commands.PollCommand.HandleEdit | src/main/java/com/ssquadteam/polls/commands/PollCommand.java:209-256 | each error is an if-and-only-if: no argument; a non-keyword that finds no poll; a keyword without a session, or `option` without a number; a bad option number. A non-keyword that finds a poll starts an editing session for it as LoadForEdit states, rescheduling the reopen timer and keeping drafts, open books and every other session; a keyword with a session prompts for the field as PromptField states |
| Commands.PollCommand.LoadForEdit | src/main/java/com/ssquadteam/polls/commands/PollCommand.java:215-225 | the new session replaces the player's, is marked as editing the target, and carries its code, question and first min(6, n) options; the duration is max(0, closesAt - now) only when the target is OPEN; the reopen timer is rescheduled and drafts and open books are kept |
| Commands.CopyOptions | src/main/java/com/ssquadteam/polls/commands/PollCommand.java:224-225 | the first min(6, n) texts fill slots 0, 1, … in order; the code, question, duration, awaited field and edit mark stay |
| Commands.PrefillFromPoll | src/main/java/com/ssquadteam/polls/commands/PollCommand.java:216-225 | a fresh session becomes an edit of the target holding its code, question, first min(6, n) options in order and, only while the target is open, the time left |
| Commands.PollCommand.PromptField | src/main/java/com/ssquadteam/polls/commands/PollCommand.java:232-256 | the session awaits the keyword's field, keeping its entries and its edit mark, with no other session changed; `option n` accepts only 1 ≤ n ≤ 6, awaits slot n - 1 and replies with n's ordinal; a rejected option changes nothing |
| Messages.ReplaceAbsent | src/main/java/com/ssquadteam/polls/service/MessageService.java:50 | text with no occurrence of the placeholder comes back unchanged |
| Messages.ReplaceBySelf | src/main/java/com/ssquadteam/polls/service/MessageService.java:50 | replacing a placeholder by itself changes nothing |
| Messages.ReplaceAtStart | src/main/java/com/ssquadteam/polls/service/MessageService.java:50 | text that starts with the placeholder has it replaced, and the scan resumes right after it |
| Messages.ReplaceSkipsChar | src/main/java/com/ssquadteam/polls/service/MessageService.java:50 | a first character that cannot start the placeholder is kept as it is |
| Messages.ReplaceAfterPlainText | src/main/java/com/ssquadteam/polls/service/MessageService.java:50 | an occurrence after '{'-free text is replaced, that text is kept, and scanning resumes after the occurrence |
| Messages.Placeholder | src/main/java/com/ssquadteam/polls/service/MessageService.java:50 | the key wrapped in braces: two characters longer, `{` first, `}` last and the key between them |
| Messages.Apply | src/main/java/com/ssquadteam/polls/service/MessageService.java:46-53 | an empty map returns the template; otherwise each entry's `{key}` is replaced by its value in turn, in iteration order |
| Messages.PlainTemplateUnchanged | src/main/java/com/ssquadteam/polls/service/MessageService.java:46-53 | a template without '{' is returned unchanged by every map |
| Messages.SubstituteAtEnd | src/main/java/com/ssquadteam/polls/service/MessageService.java:46-53 | a template of '{'-free text and one placeholder at its end, such as "Closes {time}", becomes the text followed by the entry's value |
| Messages.SpanOf | src/main/java/com/ssquadteam/polls/service/MessageService.java:65-68 | whole days, hours below 24 and minutes below 60, which account for all but fewer than 60 of the seconds |
| Messages.Parts | src/main/java/com/ssquadteam/polls/service/MessageService.java:70-78 | one to three parts |
| Messages.FormatRelativeTime | src/main/java/com/ssquadteam/polls/service/MessageService.java:61-80 | the text is the printed parts joined by single spaces, as "in …" for a close time now or later and "… ago" for one in the past |
| Messages.SplitSeconds | src/main/java/com/ssquadteam/polls/service/MessageService.java:66-68 | the three divisions produce exactly the span of whole days, hours and minutes of the seconds |
| Messages.BuildParts | src/main/java/com/ssquadteam/polls/service/MessageService.java:69-78 | the StringBuilder steps produce the non-zero days and hours, then the minutes when non-zero or when nothing else was printed, separated by single spaces |
| Messages.PastExactly | src/main/java/com/ssquadteam/polls/service/MessageService.java:62-79 | the text ends in " ago" exactly when closesAt < now, and starts with "in " exactly when closesAt ≥ now |
| Messages.UnderAMinute | src/main/java/com/ssquadteam/polls/service/MessageService.java:66-79 | 0..59 seconds ahead gives "in 0m"; 1..59 seconds late gives "0m ago" |
| Messages.AllThreeParts | src/main/java/com/ssquadteam/polls/service/MessageService.java:66-79 | with days, hours and minutes all non-zero the text lists "<d>d <h>h <m>m" in that order |
| Messages.ExampleSpan | src/main/java/com/ssquadteam/polls/service/MessageService.java:66-79 | 90061 seconds are 1 day, 1 hour and 1 minute, the leftover second dropped |
| Messages.ExamplePast | src/main/java/com/ssquadteam/polls/service/MessageService.java:66-79 | 7200 seconds late gives "2h ago", leaving out the zero day and minute parts |

## Left out

- File I/O and Gson: JsonPollStorage `init`, `load`, `persist` and `close`. The storage is its three maps only.
- The SQLite and PostgreSQL storage backends run SQL through JDBC. They are not modelled. The SQLite backend stores no code and has no code lookup, so it does not behave like the map model.
- The PollStorage interface is not modelled on its own. The manager and the commands use the map model directly.
- Sending, broadcasting, sounds and reloading messages.yml are I/O. Replies are returned as values instead. `formatAbsoluteTime` depends on time zones and date formatting.
- Book rendering (BookFactory) and the book listener are Bukkit UI code. The reopen tick returns `Reopen` where the source opens a book.
- Plugin wiring, configuration reading and sub-command dispatch in `onCommand` are left out. The handlers are called directly. The reopen settings are constructor arguments.
- `handleList` and tab completion only format what `GetAllPolls` returns.
- Permission checks and non-player senders are left out. Every handler runs as a player who holds the permission.
- Real schedulers are not modelled. A timer is a handle, and its firing is a method the caller invokes: `ReopenTick`, or `ClosePoll` for a close timer.
- `UUID.fromString`, the MiniMessage sanitiser and `UUID.randomUUID` are parameters. Their behaviour is not part of this model.
- Concurrency is not modelled. Chat events arrive off the main thread, and a timer can race a manual close. The model is sequential.
- Durations.ParseDurationSeconds: does not model `Long` overflow or `Long.parseLong` throwing on huge digit strings, because numbers are unbounded.
- Lifecycle.CloseDelayTicks: does not model the 64-bit wrap of `(closesAt - now) * 20` in `trackOpenPoll`, because numbers are unbounded. For a close time more than about 4.6 × 10^17 seconds ahead (reachable with a duration such as "500000000000000000s"), Java's product wraps to a negative value, `Math.max` gives 1 tick and the poll closes at once; the model gives the exact tick count.
- Lifecycle.PollManager.PublishFromSession: does not model the 64-bit wrap of `now + duration`, because numbers are unbounded. A duration near `Long.MAX_VALUE` (such as "9223372036854775807s", which parses) makes Java's close time wrap negative, so the stored poll is never open; the model stores it OPEN until the exact sum.
- Lifecycle.PublishedIsOpen: holds for the unbounded sum only; with Java's wrap described above, a huge duration publishes a poll that is not open.
- Common.ParseInt: does not model the 32-bit range of `Integer.parseInt`, so numbers beyond it are accepted. Only ASCII digits are read, while Java also accepts other Unicode decimal digits.
- Messages.FormatRelativeTime: does not model `Math.abs(Long.MIN_VALUE)` overflowing, because numbers are unbounded.
- Common.Lower: maps only ASCII letters. Java's `toLowerCase` and `equalsIgnoreCase` also fold other letters. One consequence is left out: in `handleEdit`, a word that equals a keyword only under Unicode case folding (for example "questıon" with a dotless i) passes the keyword test, then matches no case of the switch, and gets `invalid_args`. Codes and draft keys are lower-cased with the server's default locale, not `Locale.ROOT` (JsonPollStorage.java:51, 105 and 155; SessionManager.java:83, 87 and 91), while durations and sub-commands use `Locale.ROOT`. Under a Turkish default locale the code "VIP" is indexed as "vıp" and "vip" then finds nothing, so the case-insensitive lookup stated for `Storage.JsonPollStorage.SavePoll`, `Storage.JsonPollStorage.FindByIdOrCode` and `SessionManagement.DraftLookupIgnoresCase` holds only under a default locale that lower-cases ASCII letters to ASCII.
- Null strings are modelled as `Option`. A null placeholder map is modelled as an empty one.
- The Vote record is not modelled; ballots are a map from player to option index.
