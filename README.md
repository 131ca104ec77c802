# Tally counting bot: a Dafny model of its counting game

Tally is a Discord bot that runs counting channels. In a counting channel, people post
consecutive numbers in turn. A post that carries the expected number, from someone
other than the previous poster, gets a check mark. Any other post gets a cross and is
deleted. The bot also creates counting channels, forgets a channel once it is deleted,
reports a channel's current number, offers the guild's counting channels as
autocomplete choices, and shows a top-ten leaderboard of counters.

The model has five modules:

- `Wrappers`: the `Option` type, used for nullable store columns and for parse results.
- `Parsing`: the number classifier. This is Python's
  `re.match(r'^(\d+)(?:\s.*)?$', text)` followed by `int(group(1))`.
  - `PatternMatch` states what the pattern means, leaving every backtracking choice open.
  - `ParseCount` is the greedy classifier that the handler uses.
  - The lemmas prove that the two agree in both directions, and that a decimal number
    reads back as itself.
- `Counting`: the game rule on values.
  - `Tables` holds the content of the store: the stored number and the last poster of
    each channel, the count of each (user, guild) pair, and each guild's channel list.
  - `Verdict` decides what a message does, and `Next` gives the store after it.
  - `Run` folds `Next` over a sequence of messages.
  - `Register` and `Forget` are the registry writes.
  - The lemmas say what one message writes, and what a run of messages does to numbers,
    turn order and counts. They also prove that a consistency invariant holds throughout.
- `Bot`: the class `Store`, with the four tables as fields, and one method per handler.
  - Handlers: message received, create channel, channel deleted, current number, and the
    current-number autocomplete.
  - Each state-changing method ties its new state to `Next`, `Register` or `Forget` on
    the old state, and it keeps `Valid()`.
- `Ranking`: the leaderboard's rank loop.
  - The loop is proved equal to `Reference`, which states the result without a counter:
    drop the rows without a user, keep ten, number them from 1, and show the members.

Calls into the chat platform become parameters:
- the channel that creation produced, and whether repositioning it succeeded;
- whether a user id still resolves to a guild member;
- whether a channel id resolves to a text channel.

The database module (src/database.py) is not part of this model. Its tables are modelled
as the four maps above. Its functions are read by their names and by how bot.py uses
them:
- `update_channel` writes a channel's number and last poster;
- `update_user_count` adds one to the author's count in the guild;
- `insert_guild` appends a channel to the guild's list;
- `delete_channel` removes the channel's record.

The model also relies on these readings of the database module:
- `check_count_channel` is truthy at src/bot.py:44 and not `None` at src/bot.py:140
  exactly for registered channels. If it returned a plain boolean instead, the test at
  src/bot.py:140 would always hold.
- Channel ids are passed as strings at src/bot.py:44, 59 and 70, but as an integer at
  src/bot.py:60. The model reads both as the same channel.
- `update_user_count` also receives the channel id (src/bot.py:83). The model keys counts
  by (user, guild) only and drops that argument, because the leaderboard reads the counts
  per guild (src/bot.py:100).
- The store starts empty (`Bot.Store.constructor`, at `db_init` on src/bot.py:24) only
  on a first start. On an existing database, `db_init` presumably keeps its rows.

## How the code differs from the intended behaviour

The model follows the code. Where the code's behaviour differs from what the bot evidently
intends, the model states the code's behaviour:

- **The number advances by two per post.** The expected number is one more than the
  stored number (src/bot.py:74). An accepted post then stores the posted number plus one
  (src/bot.py:82), which is the old stored number plus two.
  - So after a channel is created at 1, the posts that are accepted are 2, 4, 6, …
  - `Counting.StepWrites` and `Counting.RunStored` state this arithmetic.
  - Nothing here claims that the expected number goes up by one.
- **A message in a channel that is not a counting channel never reaches the test meant
  for it.** The test at src/bot.py:75 is dead: `+ 1` is applied to the lookup result
  first (src/bot.py:74), so a missing channel raises before the test runs.
  - The model makes "a bot author, or a registered channel" the precondition of
    `Bot.Store.OnMessage`, and of `Counting.Verdict` through `Counting.Handled`.
- **The author id is written as an integer but compared as a string.** The comparison
  is at src/bot.py:72 and 80; the write is at src/bot.py:82.
  - Whether the comparison can ever succeed depends on the unseen database module.
  - The model uses one id type throughout, so it compares like with like.
- **The current-number command shows the stored number** (src/bot.py:141). That is one
  less than the number the next post must carry; `Bot.Store.CurrentNumber` states both.

## Model

| member | source | states |
|---|---|---|
| Parsing.LeadingDigits | src/bot.py:76 | `\d+` is greedy: it takes the longest digit prefix, so the character after it, if any, is not a digit |
| Parsing.GroupIsLeadingDigits | src/bot.py:76 | whatever backtracking the pattern does, group 1 can only be the longest digit prefix |
| Parsing.LineToEndMeaning | src/bot.py:76 | `.*$` after the whitespace character matches iff the rest contains no newline, or contains only a final newline |
| Parsing.TrailerMeaning | src/bot.py:76 | after the digit run, `(?:\s.*)?$` matches iff the pattern matches with that run as group 1 |
| Parsing.ParseCountMeaning | src/bot.py:76-78 | the classifier returns `Some(n)` iff the pattern matches with a group 1 whose `int()` is `n` (both directions) |
| Parsing.ParseCountRejects | src/bot.py:76-77 | the classifier returns `None` iff the pattern has no match at all |
| Parsing.DecimalRoundTrip | src/bot.py:78 | `int()` reads the decimal rendering of any natural number back as that number |
| Parsing.ParseCountOfDecimal | src/bot.py:76-78 | a number is read as itself when written alone, before one final newline, or before whitespace and newline-free text |
| Parsing.ParseCountCheering | src/bot.py:76-78 | "3 let's go!" is read as 3 |
| Parsing.ParseCountLeadingZeros | src/bot.py:78 | "007" is read as 7 |
| Parsing.ParseCountRejectsExamples | src/bot.py:76-77 | "5nice", "" and " 5" are not counts |
| Parsing.ParseCountRejectsSecondLine | src/bot.py:76 | trailing text that runs onto a second line makes the message not a count |
| Counting.AcceptRule | src/bot.py:67-80 | a message is ignored iff its author is a bot; it is accepted iff a person posted it, the pattern matches it with group 1 worth the stored number plus one, and the author is not the channel's last poster (both directions) |
| Counting.RepeatAuthorRejected | src/bot.py:80-87 | the correct number from the channel's last poster is rejected and writes nothing |
| Counting.StepWrites | src/bot.py:80-91 | nothing is written unless the post is accepted. An accepted post stores the posted number plus one (the old number plus two), records the author as last poster and adds exactly one to the author's count in the guild (0 if absent). No other channel, count or registry entry changes |
| Counting.NextConsistent | src/bot.py:66-91 | one message keeps the store consistent: numbers at least 1, last posters only for registered channels, registry and records in agreement |
| Counting.RunStored | src/bot.py:74-82 | over any run of messages, a channel's stored number grows by exactly 2 per post accepted in it |
| Counting.RunAlternates | src/bot.py:80-82 | over any run, a channel's accepted posters never repeat back to back, and the first differs from the poster before the run |
| Counting.RunLastUser | src/bot.py:82 | after a run, a channel's last poster is the author of its last accepted post, or is unchanged if nothing was accepted |
| Counting.RunUserCount | src/bot.py:83 | after a run, a user's count in a guild has grown by exactly the number of their posts accepted in that guild |
| Counting.RunConsistent | src/bot.py:66-91 | a run keeps the store consistent and never changes the guild registry |
| Counting.Filter | src/bot.py:157-160 | the filter keeps exactly the ids its test accepts |
| Counting.FilterAppend | src/bot.py:157-160 | filtering a concatenation filters each part in turn, so the filter keeps the list's order |
| Counting.WithoutAppend | src/bot.py:45 | taking a channel out of a concatenated list takes it out of each part in turn |
| Counting.WithoutAbsent | src/bot.py:45 | taking out a channel that is not listed leaves the list as it was |
| Counting.RegisterEffect | src/bot.py:59-60 | registering a channel lists it last for its guild and stores number 1 for it (so 2 is expected), with no last poster; every other record, list and count is unchanged |
| Counting.RegisterConsistent | src/bot.py:59-60 | registration keeps the store consistent |
| Counting.ForgetEffect | src/bot.py:45 | deleting a record unregisters exactly that channel. Each guild's list becomes the old list without that channel. All other records, list entries and counts stay |
| Counting.ForgetKeepsOrder | src/bot.py:45 | deleting a channel listed once for a guild leaves the guild's other channels in their old order |
| Counting.ForgetConsistent | src/bot.py:45 | deleting a record keeps the store consistent |
| Counting.ForgetUnregistered | src/bot.py:44-45 | in a consistent store, deleting the record of an unregistered channel changes nothing |
| Bot.Store.constructor | src/bot.py:24 | the store starts empty and consistent |
| Bot.Store.OnMessage | src/bot.py:66-94 | returns the verdict of the accept rule and moves the store to `Next` of the old store. A rejected or ignored message writes nothing. An accepted one writes exactly the channel's number and last poster and the author's guild count. The registry never changes and consistency is kept |
| Bot.Store.CreateChannel | src/bot.py:54-63 | the channel is registered at number 1 only when creation and repositioning both succeeded; otherwise the reply is a failure and the store is untouched |
| Bot.Store.OnChannelDelete | src/bot.py:43-45 | a registered channel's record is deleted (`Forget`); for any other channel nothing changes; consistency is kept |
| Bot.Store.CurrentNumber | src/bot.py:136-149 | reports a number iff the channel is registered; that number is the stored one, one less than the number its next post must carry |
| Bot.Store.CountingChannels | src/bot.py:152-162 | returns the guild's registered channels that resolve to text channels, in registry order, and exactly those |
| Ranking.MedalFor | src/bot.py:113-127 | a rank carries a medal iff it is 1, 2 or 3 |
| Ranking.Leaderboard | src/bot.py:97-133 | reports "no users have counted yet" iff the query returned no rows or the all-null row first; otherwise its lines equal `Reference` |
| Ranking.TakeAtLastRank | src/bot.py:129-130 | once ten rows that name a user have been seen, those are the first ten such rows of the whole result |
| Ranking.NumberedRanks | src/bot.py:112-131 | the numbered lines are no more than the pairs, and their ranks lie in range and strictly increase |
| Ranking.NumberedRows | src/bot.py:119-127 | each line shows the pair its rank points at, for a member, with that rank's medal |
| Ranking.NumberedComplete | src/bot.py:119-121 | every pair whose user is a member gets a line |
| Ranking.LeaderboardShape | src/bot.py:112-131 | at most ten lines; ranks go from 1 to at most 10 and strictly increase; only ranks 1-3 carry medals; rank k+1 shows the k-th row that names a user, and that row shows iff its user is a member. So rows without a user use no rank, and members who left use a rank but show no line |
| Ranking.SkippedRowsTakeNoRank | src/bot.py:115-117 | inserting a row without a user anywhere changes no line of the leaderboard |

The methods `Bot.SessionTurns`, `Bot.SessionNextTurn` and `Bot.SessionRejects` are
worked scenarios. Each one is a sequence of handler calls whose outcomes are asserted.

## Left out

- Client setup and login are platform plumbing and are not modelled: the intents,
  `bot.run`, `on_ready` and `tree.sync` (src/bot.py:20-40, 164-165).
- `validate_channels` (src/bot.py:40) is left out. It is a startup reconciliation whose
  logic lives in the database module, which is not part of this model.
- `bot.process_commands` (src/bot.py:94) is left out because it is framework dispatch.
- Embeds, message wording, emoji reactions and channel mentions are not modelled. The
  outcome is the `Effect`, `CreateReply`, `NumberReply` or `Board` value.
- `sleep(0.3)` before deletion (src/bot.py:86, 90) is left out. It has no logical effect
  in the sequential model. It is `time.sleep` (src/bot.py:17), so inside the async handler
  it blocks the event loop, and every event stalls for 0.3 s per rejected message. That
  timing belongs with concurrency, which is also left out (next lines).
- The name, category and slow-mode delay of a created channel are left out. They belong
  to the platform call, which is a parameter here.
- The internals of the database module (src/database.py) are not part of this model: its
  SQL, its types and its row layout.
  - OnChannelDelete: the deleted channel is also removed from every guild's list. This
    assumes the registry row goes with the channel record.
- Concurrency is not modelled: handlers run one at a time. The async handler reads the
  store and then writes it, so two simultaneous posts could both be accepted.
- Parsing.IsDigit: `\d` and `int()` are modelled on ASCII digits only. Python also
  accepts other Unicode decimal digits.
- Bot.Store.OnMessage: failures of the platform and store calls at src/bot.py:81-83
  are not modelled. If the check-mark reaction at src/bot.py:81 raises (the bot lacks
  permission to react, the author blocked it, the message is gone), the handler stops:
  nothing is written and the message is not deleted. The two writes at src/bot.py:82 and
  83 are separate calls, so a failure in the second leaves the channel moved on and the
  author's count unchanged. The model performs the writes of an accepted post together.
  Likewise, a failing cross reaction or deletion (src/bot.py:85-91) is not modelled.
- Bot.Store.CreateChannel: failures of the store and reply calls inside the `try` are not
  modelled. The model registers a channel in one step (`Register`).
  - In the source, registration is two separate store calls: `insert_guild` at
    src/bot.py:59, then `update_channel` at src/bot.py:60.
  - If the second call raises after the first, the guild lists a channel that has no
    stored number. `Counting.Consistent` rules out that state. The `except` at
    src/bot.py:62-63 then sends the failure reply.
  - The confirmation reply at src/bot.py:61 is also inside the `try`. If it raises
    after src/bot.py:59-60, the failure reply is sent for a channel that was already
    registered.
  - `interaction.response.defer()` at src/bot.py:50 is outside the `try`. If it fails,
    the command stops with no reply and no write.
- Bot.Store.OnMessage: a message in an unregistered channel is excluded by precondition.
  The source raises an exception at src/bot.py:74 instead.
- Counting.StepWrites: the model does not state that the expected number rises by one
  per post. The visible code makes it rise by two, and nothing visible closes that gap.
- Bot.Store.CurrentNumber: the failures of the platform calls are not modelled: the
  `int(channel)` conversion of a non-numeric argument (src/bot.py:138), and the
  `ch.mention` of a channel the guild cannot resolve (src/bot.py:143, 148).
- Ids are modelled with one type, so the str/int mismatch of the author id
  (src/bot.py:72, 80 against 82) is not modelled.
- Ranking.Leaderboard: the query's ordering and its limit belong to the database module.
  The rows arrive as given.
