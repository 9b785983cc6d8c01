# NP-Gambling wager ledger in Dafny

NP-Gambling is a Discord bot for a friendly betting pool. Gamblers register,
an admin opens bets on matches with three decimal odds (home win `1`, draw
`0`, away win `2`), and each gambler places one pick per bet. The pick can be
changed up to the deadline, and code `3` withdraws it. After the match an
admin declares the result. Settlement then credits each gambler who picked
the winner with `odd − 1` and charges everyone else a 1-unit fee. A weekly
leaderboard ranks the gamblers by payoff.

The repository holds the ledger twice. The two versions are modelled as
separate modules and are not merged:

- **The relational variant** (`database.py`) is the one the bot calls.
  - `Ledger` (ledger.dfy) holds its records: gamblers, bets, the wager table
    keyed by (gambler id, bet id) and weekly rows. It also holds the
    specification functions for settlement and for recomputing counters from
    scratch, with the lemmas that relate the two.
  - `Database` (database.dfy) is the store. It is a class whose fields are the
    four tables and whose methods are the store operations, each proved
    against those specification functions.
- **The record/JSON variant** (`bet.py`, `gambler.py`, `database2.py`):
  - `BetRecord` (bet.dfy) and `GamblerRecord` (gambler.dfy) model the two
    records and their guarded in-place updates.
  - `Database2` (database2.dfy) models id generation, placing a guess,
    declaring a result, and the settlement pass over every gambler.
- **Pure slices of the Discord layer:**
  - `EmbedMessages` (embed_messages.dfy): the custom ids of the pick buttons,
    how they are decoded, and the rule that disables the buttons.
  - `DiscordBot` (discord_bot.dfy): message chunking, global ranks, the three
    bet-id autocomplete filters, and the acceptance rule for typed odds.

Helper modules:
- `Wrappers`: Option, Result and Outcome.
- `Sequences`: filter, insertion sort by a key, distinctness.
- `Text`: decimal show and parse, `split`, `lower`, `upper`, substring test,
  character replace.

Modelling conventions:
- Odds and payoffs are exact `real`s.
- Times are integer timestamps, and the clock is the parameter `now`.
- A raised exception becomes an `Err` or `Fail` value whose constructor names
  the `raise` branch.

## Model

| member | source | states |
|---|---|---|
| Ledger.Settled | database.py:323-342 | one wager settled incrementally: total+1, exactly one of correct/wrong +1, correct exactly when the pick equals the stored result, payoff moves by odd−1 on a win and by −1 otherwise; id and name kept |
| Ledger.Wagerers | database.py:311-315 | the gamblers settled are exactly those holding a wager row on the bet |
| Ledger.SettleAll | database.py:323-342 | the gamblers table after settlement has the same keys, every wagering gambler counts one more wager and every other gambler is untouched |
| Ledger.BetIdsOf | database.py:368-373 | the bets a gambler is recomputed over are exactly those the gambler holds a wager on |
| Ledger.WeekBetIdsOf | database.py:419-424 | the bets of one week counted for a gambler are exactly the gambler's wagers on bets of that week |
| Ledger.Tally | database.py:375-392 | a from-scratch tally keeps correct + wrong = total |
| Ledger.TallyCountsEachBetOnce | database.py:375-392 | the recomputed total is at most the number of bets, since each bet adds at most one wager |
| Ledger.TallyRemove | database.py:375-392 | the tally does not depend on the order the wagers are visited in: it is any one wager's contribution plus the tally of the rest |
| Ledger.TallyAdd | database.py:375-392 | adding a bet to the tallied set adds exactly that wager's contribution |
| Ledger.SettlementAgreesWithRecompute | database.py:302-398 | when a bet gets its first result, incremental settlement keeps every gambler's counters equal to the full recompute over resolved bets |
| Ledger.ResolvedTally | database.py:360-392 | giving an unresolved bet its result moves a wagering gambler's recomputed counters by exactly that wager's score and leaves every other gambler's recomputed counters unchanged |
| Ledger.OthersUnresolvedAlike | database.py:375-392 | giving one bet its result does not change the tally over the other bets |
| Ledger.SettlingTwiceCountsTwice | database.py:302-354 | settlement has no guard: running it twice counts each wager twice |
| Database.PickLabel | database.py:214-215 | the label a stored or new pick is announced with: the home team for 1, the away team for 2, "beraberlik" for 0, and "kararsiz" for no pick or any other code |
| Database.TooLateFor | database.py:203 | a wager is too late only when the clock is strictly past the deadline |
| Database.FreeIdExists | database.py:99-103 | while fewer than 90 000 000 ids are taken, a free id exists in [10 000 000, 99 999 999], so the retry loop can stop |
| Database.OtherWeeks | database.py:414 | deleting a week's weekly rows keeps exactly the rows of the other weeks |
| Database.TallyWagers | database.py:375-392 | the accumulating loop over a gambler's wagers computes the from-scratch tally |
| Database.Credit | database.py:331-342 | one gambler's counters updated by one wager are the incremental settlement of it |
| Database.SettleWagers | database.py:323-351 | the settlement loop yields the settled table and exactly one distinct report line per wagering gambler, each with the pick, whether it won, and the payoff before and after |
| Database.RecomputeAll | database.py:360-398 | the recompute loop rebuilds every gambler's counters from their wagers on resolved bets |
| Database.Listed | database.py:266-267 | listing a table yields every row once and nothing else |
| Database.StandingRow | database.py:417-450 | one gambler's weekly row holds the tally of that week's resolved bets |
| Database.StandingRows | database.py:416-451 | the weekly rows, one per gambler, in the order the gamblers are visited |
| Database.WeekRows | database.py:413-451 | a week's fresh rows: one per gambler, distinct, each the gambler's weekly standing |
| Database.NumberRows | database.py:460-461 | ranks 1..N are assigned in list order |
| Database.RankRows | database.py:454-461 | ranked rows are a reordering of the fresh rows in non-increasing payoff order, ranked 1..N |
| Database.WeekSnapshot | database.py:413-461 | the written week is one row per gambler with the weekly standing, in non-increasing payoff order, ranked 1..N |
| Database.Store.constructor | database.py:110-116 | the store starts with four empty tables |
| Database.Store.AddGambler | database.py:119-128 | a registered id fails with nothing changed; otherwise exactly one gambler with that id and name and zero counters is added and no other table changes |
| Database.Store.GenerateUniqueBetId | database.py:99-103 | the id is in [10 000 000, 99 999 999] and is not a bet id yet |
| Database.Store.AddBet | database.py:184-192 | a bet without an id gets a fresh generated one before insertion (database.py:105-108); a bet with a taken id is refused with nothing changed; only the bets table changes |
| Database.Store.LinkGamblerToBet | database.py:194-260 | unknown gambler, unknown bet, and a clock strictly past the deadline (unless skipped) fail in that order; equal labels fail, so a withdraw with no wager fails; when none of these applies the call succeeds: pick 3 deletes the row, any other pick overwrites or inserts it; nothing else changes |
| Database.Store.SetBetResult | database.py:283-300 | unknown bet, truthy result already set, deadline in the future and result outside 1/0/2 fail in that order with nothing changed; otherwise only that bet's result becomes the new one |
| Database.Store.UpdateGamblersOnBetResult | database.py:302-354 | unknown bet fails; no wagers returns None with nothing changed; otherwise the gamblers become the incremental settlement and one line per wagerer is reported |
| Database.Store.SetAllGamblersGlobalStats | database.py:356-398 | every gambler's counters become the from-scratch tally of their wagers on resolved bets; nothing else changes |
| Database.Store.UpdateWeeklyStats | database.py:412-462 | other weeks' rows are kept and the week's rows are replaced by one ranked standing per gambler |
| Database.Store.AllGamblers | database.py:266-269 | every gambler once, in non-increasing payoff order |
| Database.Store.AllBets | database.py:271-274 | every bet once, in non-decreasing deadline order |
| BetRecord.WinningOddAfter | bet.py:24-32 | succeeds exactly for a result in 1/0/2 on a bet with no truthy result; the range error is reported before the already-resulted error |
| BetRecord.DecisiveResultIsFinal | bet.py:29-32 | after a home or away result, no further result is accepted |
| BetRecord.DrawCanBeRedeclared | bet.py:29-32 | a draw result (0) is falsy, so any valid result overwrites it |
| BetRecord.Bet.constructor | bet.py:7-18 | the record holds the given fields |
| BetRecord.Bet.SetWinningOdd | bet.py:24-32 | on success WINNING_ODD becomes the argument; on failure it is unchanged; no other field can change |
| GamblerRecord.BetsAfter | gambler.py:19-28 | succeeds exactly for a pick in 1/0/2 on a game not yet guessed; on success BETS gains exactly game→pick and keeps every other entry |
| GamblerRecord.GuessIsFinal | gambler.py:25-28 | once a game is guessed, guessing it again always fails |
| GamblerRecord.Gambler.constructor | gambler.py:5-13 | the record holds the given fields |
| GamblerRecord.Gambler.PlaceBet | gambler.py:19-28 | BETS changes only as the guess rule allows; counters and payoff cannot change |
| Database2.GenerateId | database2.py:13-21 | "bet" and "gmb" give key type, "_" and 8 upper-case hex digits; any other key type fails |
| Database2.GeneratedIdKeepsUuidPrefix | database2.py:16-18 | the id's suffix is the first 8 uuid digits, upper-cased |
| Database2.GeneratedIdsCollideOnPrefix | database2.py:16-18 | two uuids give the same id exactly when their first 8 digits agree |
| Database2.FindGambler | database2.py:158-176 | the first row whose id (or name) matches the reference, or none when no row matches |
| Database2.PlacedOn | database2.py:178-200 | unknown gambler, unknown bet and bad pick fail in that order; past them the call succeeds exactly when the bet is not yet guessed, and a repeated guess fails with the pick already stored; on success exactly one gambler's BETS gains the guess keyed by the bet's id |
| Database2.PlacingOnlyAddsAGuess | database2.py:178-200 | a successful guess changes no counter and no other gambler, keeps existing entries and keeps every stored pick an outcome |
| Database2.Processed | database2.py:219-221 | a gambler is processed only when it holds a truthy guess on the bet, so a missing guess and a draw pick (0) are both skipped |
| Database2.OddOf | database2.py:226 | the odd `getattr(bet, f"ODD_{k}")` reads for outcome code k: ODD_1, ODD_0 or ODD_2 |
| Database2.LineFor | database2.py:223-233 | a report line wins exactly when the pick equals the stored result; its payout is odd−1 on a win and −1 on a loss |
| Database2.DeclaredRow | database2.py:218-236 | skipped gamblers (no entry or a falsy one, so draw picks) are unchanged; others count one more wager, correct+1 with wrong unchanged on a win and wrong+1 with correct unchanged on a loss, and the payoff moves by the reported payout |
| Database2.Declared | database2.py:217-236 | the gamblers table after the loop: each row updated on its own by DeclaredRow, in place and in table order |
| Database2.DeclaredLines | database2.py:213-236 | the report, defined as one line per processed gambler in table order; its contract bounds it at one line per row |
| Database2.SettleGamblerRow | database2.py:219-236 | the loop body: a gambler with no entry or a falsy one is skipped with no line; otherwise the row is settled by the corrected update and the line reports the win or the loss |
| Database2.DeclaredLinesFollowTable | database2.py:212-233 | the report has one line per processed gambler, in table order |
| Database2.DeclaringKeepsBalance | database2.py:236 | TOTAL = CORRECT + WRONG is preserved for every gambler |
| Database2.DeclaredRowAsWritten | database2.py:218-236 | as written, a lost pick leaves PAYOFF unchanged |
| Database2.AsWrittenLossIsNotCharged | database2.py:229-233 | as written, every lost pick's reported payout is missing from PAYOFF; the corrected update applies it |
| Database2.AsWrittenLossExample | database2.py:229-233 | a home pick on an away win is reported as −1 while PAYOFF stays 0.0 |
| Database2.WriteBackHitsFoundRowOnly | database2.py:192-200 | with distinct gambler ids, the row found for a reference is the only row the write-back by id matches |
| Database2.Store2.GamblerPlaceBet | database2.py:178-202 | the gamblers table becomes the placed table, or is unchanged with the error raised |
| Database2.Store2.SetBetResult | database2.py:90-107 | the errors of the record's result setter propagate with the bets unchanged; on success only that bet's result changes |
| Database2.Store2.DeclareResults | database2.py:212-258 | the loop leaves every gambler settled by the corrected update and returns the report lines in table order |
| EmbedMessages.CustomId | embed_messages.py:65-68 | the custom id `f"{bet.id}_{k}"` of the button for pick k |
| EmbedMessages.IsDisabled | embed_messages.py:63 | the buttons are disabled once the clock reaches the deadline, at the deadline itself included |
| EmbedMessages.ParseCustomId | embed_messages.py:86-88 | a custom id decodes only when it splits on "_" into exactly two pieces |
| EmbedMessages.CustomIdRoundTrip | embed_messages.py:65-88 | decoding a button's custom id gives back its bet id and pick, negative ids included |
| EmbedMessages.DisabledAtDeadlineButStillAccepted | embed_messages.py:63 | the buttons are disabled at the deadline itself while the store still accepts a pick there, and only then |
| EmbedMessages.EveryButtonDecodesToItsPick | embed_messages.py:65-78 | the four buttons decode to picks 1, 0, 2, 3 in that order on the view's bet |
| EmbedMessages.BetButtons.constructor | embed_messages.py:58-78 | four buttons titled home team, Draw, away team, Withdraw, all disabled exactly when now ≥ deadline |
| EmbedMessages.ConfirmedPick | embed_messages.py:94-99 | the odd confirmed for an outcome pick is the odd settlement credits on a win (Ledger.OddFor); 1, 0 and 2 name the home team, Draw and the away team, and any other code confirms Indecisive at 1.00 |
| DiscordBot.SendSplitMessage | discord_bot.py:752-755 | the chunks concatenate to the content, each holds 1..2000 characters, all but the last hold exactly 2000, and there are ⌈len/2000⌉ of them |
| DiscordBot.RankMap | discord_bot.py:696 | the gambler at position k gets rank k+1 and every rank points back to its gambler |
| DiscordBot.HigherPayoffRanksFirst | discord_bot.py:694-696 | in a payoff-sorted list a strictly higher payoff gets a strictly smaller rank |
| DiscordBot.RanksFollowPayoff | discord_bot.py:691-696 | with ranks given by position in the payoff-sorted list, any gambler with a strictly higher payoff gets a strictly smaller rank |
| DiscordBot.GlobalRanks | discord_bot.py:691-696 | the sorted list is a permutation of the gamblers in non-increasing payoff order, ranks are 1..N by position, and a higher payoff never gets a larger rank |
| DiscordBot.Shortlist | discord_bot.py:100-112 | at most 25 choices, all kept bets, and a kept bet is missing only when 25 are shown |
| DiscordBot.PlaceBetOptions | discord_bot.py:100-112 | at most 25 bets, each unresolved, upcoming and matching the query; a qualifying bet is missing only when 25 are shown |
| DiscordBot.BetAsOptions | discord_bot.py:152-166 | the same filter, except that admins also see bets past their deadline |
| DiscordBot.ResultOptions | discord_bot.py:347-358 | at most 25 unresolved bets matching the query, with no deadline filter |
| DiscordBot.BetAsBetweenPlaceAndResult | discord_bot.py:152-166 | for a non-admin the /bet_as list equals the /bet list; for an admin it equals the /result list |
| DiscordBot.ParseFloatShowNat | discord_bot.py:802 | float() reads a plain decimal numeral as its value |
| DiscordBot.IsCorrectOdd | discord_bot.py:797-815 | a non-string is refused; an accepted odd is at least 1.0; otherwise the value is float() of the text with "," read as "." |
| DiscordBot.CommaReadAsPoint | discord_bot.py:802 | writing "," or "." for the decimal point makes no difference |
| DiscordBot.CommaOddAccepted | discord_bot.py:802-815 | "2,5" is accepted as 2.5 |
| DiscordBot.OddBelowOneRefused | discord_bot.py:809-813 | "0.9" is refused |

## Left out

- The Discord layer is not modelled: slash-command plumbing, role checks, embeds, DMs, leaderboard message editing, channel history and the rest of `update_leaderboard`. Only the slices listed above are modelled.
- Persistence is not modelled: SQLAlchemy sessions, commits and rollbacks, the sqlite connections and SQL text, and JSON (de)serialisation of the records. The tables are in-memory maps and sequences. The sqlite store of database2.py is opened on given tables rather than creating them.
- `round(x, 2)` on payoffs is dropped. Reals are exact.
- Timezones are dropped. Times are integer timestamps and `now` is a parameter.
- Randomness is a parameter or a choice. `random.randint` becomes any free id in range, and `uuid4().hex` is a parameter with the shape of 32 lower-case hex digits.
- The `isinstance` checks that raise `TypeError` for a non-integer result or pick (bet.py:25-26, gambler.py:20-21) are not modelled: results and picks are `int` here. Other `isinstance` tests are modelled where they decide behaviour. `DiscordBot.IsCorrectOdd` refuses a value that is not a string, and `Database2.FindGambler` dispatches on an id or a name.
- database2.py's `get_bet` accepts only `int` references (database2.py:79-85), which would refuse the string ids `generateID` makes. Bets are looked up by their stored key instead.
- database2.py builds records positionally from table rows (database2.py:150, 176), and that column order does not match gambler.py:7-13. Rows are modelled as records with named fields, so this mis-ordering is not reproduced.
- database2.py keeps BETS in JSON, where keys are always strings. Keys are modelled as strings throughout, so no int/str key coercion happens.
- Reads that are not in the ledger core are not modelled: `get_gambler_bet_details`, `get_weekly_stats`, `get_gambler_bets` and `get_gambler`/`get_bet` of database.py, `create_gambler`, `create_bet`, `get_all_gamblers`, `get_all_bets` and `get_gambler_count` of database2.py, and the gambler autocomplete of `/bet_as`.
- The Turkish and emoji reply strings are not modelled. `link_gambler_to_bet` returns Withdrawn, Changed or Placed. Team names and the words "beraberlik" and "kararsiz" are kept, because the label comparison depends on them.
- `str.lower()`/`str.upper()` are ASCII-only.
- Python's `int()` and `float()` accept more than is modelled: surrounding whitespace, underscores, exponents, "inf" and "nan". They are modelled on plain signed decimal numerals.
- The order of tied rows is not stated. `session.query(...).all()` has no ORDER BY and `ORDER BY payoff` leaves ties unordered, so the order a stable sort keeps is itself unspecified.
- The display text of the autocomplete choices is not modelled. The options are the bets themselves, and each choice's value is the bet's id.
- Database.SettleWagers: the order of the report lines is not stated. Only their number, their distinctness and their contents are.
- Ledger.SettlementAgreesWithRecompute: stated only for a bet that had no result before. A bet first resulted as a draw can be resulted again, and then the incremental counters count its wagers twice.
- Database.Store.GenerateUniqueBetId: requires that fewer than 90 000 000 bet ids lie in the range [10 000 000, 99 999 999]. With the range full, the source loops forever.
- Database.Store.AddBet: models only the duplicate-id failure of the commit. The other integrity errors the rollback path catches are left out.
- DiscordBot.GlobalRanks: requires distinct gambler ids, which the gamblers table's primary key guarantees. With duplicates, the dictionary comprehension would keep the later position.

## Findings

| source | as written | input that shows it | evidently intended | confidence | as-written member | corrected member |
|---|---|---|---|---|---|---|
| database2.py:229-233 | a lost pick sets `payout = -1` and reports "Payoff updated by -1.00$", but PAYOFF is never decreased | gambler 7 with BETS {"bet_0A1B2C3D": 1}; that bet resulted 2 (away); PAYOFF stays 0.0 | PAYOFF decreases by the 1-unit fee, as the report says and as database.py:340 does | high, not executed | Database2.DeclaredRowAsWritten, Database2.AsWrittenLossExample | Database2.DeclaredRow |
