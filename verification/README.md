# Skribbl: a verified model

A Dafny model of the drawing game's worker (Python, `backend/`) and gateway (Go, `gateway/`), with
proofs of what its protocols keep. `dafny verify dfyconfig.toml` checks everything.

How to read it:

* **Game.** `Models` holds the records, `Rotation`, `Hints` and `Scoring` the rules, `Game` one room
  as a state machine: every handler and every timer firing is one step. `GameSafety` proves what all
  runs keep, `GameSteps` what each event does and when it does nothing, `FixedRoster` who draws in a
  whole game, and `GameRoom` has the handlers as methods that change a room in place, each proved to
  take exactly the step of `Game`.
* **Text.** `EditDistance` is the two-row table against shortest chains of single edits, `ChatMask`
  and `ChatLeaks` what chat hides and shows of the secret word, `GuessFeedback` what a guess shows.
* **Rooms.** `RoomManager` has the steps of the room registry, `RoomSafety` and `VoteSafety` what runs
  keep, `RoomSteps` and `VoteSteps` what each step does and when it is refused, `VoteExample` a run
  with a departed vote, `RoomRegistry` the handlers in place, `Snapshot` saving and restoring.
* **Delivery.** `Broadcast` goes from a room broadcast to the sessions' queues, `BoundedQueue` is the
  backpressure rule of those queues, `WritePump` the coalescing of a queue into frames and its reading
  back, `Delivery` the two together, `JsonText` and `StrokeCodec` the two payload formats.
* **Gateway state.** `SessionRegistry` has the shared session objects and their two indexes, `Resolver`
  the address cache.

Modelling decisions:

* Every asynchronous handler is one atomic step, and timers are pending events that fire at any later
  point, also after they would have been cancelled. On the gateway path sends contain no suspension
  point; `end_turn` does await its broadcast before it clears the turn
  (`backend/game_engine.py:686-696`), which the atomic step leaves no room for.
* Random choices (a word, a hint letter), clocks, and what a goroutine sees of a channel are parameters
  that the theorems quantify over. UUIDs are ids not used before.
* Floating-point time and scores are exact reals, with Python's rounding to even.
* Players in a room are values held in a sequence; a room's `players_by_id` map is updated together
  with the list, as the source's shared player objects are. Gateway sessions are heap objects.

What the code does not do, although its documentation says so, is stated with the exact condition:
the minimum score of 50 (`Scoring.MinimumFiftyExactly`), hiding the word in chat for words with spaces
or stars (`ChatLeaks.HiddenWordsExactly`) and in wrong guesses (`GuessFeedback.EchoLeaksExactly`),
reading back coalesced frames when a text burst meets a binary frame (`WritePump.ReadsBackExactly`,
`WritePump.SafeQueuesExactly`), splitting strokes with more than 65535 points
(`StrokeCodec.StrokeBoundariesExactly`), and counting only the votes of players present when a voter
goes (`VoteSafety.DepartureVotesExactly`, `VoteSafety.BackedExactly`).

## Model

| member | source | states |
|---|---|---|
| `EditDistance.Levenshtein` | backend/game_engine.py:18-33 | the result is the length of some chain of single insertions, deletions and substitutions from one string to the other, and no chain is shorter |
| `EditDistance.TwoRows` | backend/game_engine.py:24-33 | the two-row loop computes the full table's last cell, for either argument order |
| `EditDistance.NextRow` | backend/game_engine.py:26-31 | the inner loop turns the row of a prefix into the row of the prefix with one more character |
| `EditDistance.DistanceSymmetric` | backend/game_engine.py:20-21 | swapping the arguments does not change the distance |
| `EditDistance.TriangleInequality` | backend/game_engine.py:18-33 | the distance obeys the triangle inequality |
| `EditDistance.ScriptNotShorter` | backend/game_engine.py:18-33 | no chain of edits beats the table's value |
| `EditDistance.ShortestScript` | backend/game_engine.py:18-33 | a chain of edits of the table's value exists |
| `GuessFeedback.JudgeGuess` | backend/game_engine.py:505-576 | solved exactly for a match up to case and outer whitespace; "very close" exactly for other guesses of three or more characters within two edits; anything else is echoed through the filter |
| `GuessFeedback.EchoLeaksExactly` | backend/game_engine.py:568-576 | for every word without outer whitespace, spaces and stars inside included: an echoed wrong guess shows the word exactly when consecutive tokens do, one more than the word has gaps; for a word without stars exactly when such tokens hold it and none of them is censored |
| `GuessFeedback.LongGuessEchoed` | backend/game_engine.py:534-576 | a guess more than two characters longer than the word is neither correct nor close |
| `GuessFeedback.WrongGuessCanLeak` | backend/game_engine.py:534-576 | "my apple" is a wrong guess that puts "apple" into chat |
| `Text.StripExactly` | backend/game_engine.py:506-506 | all outer whitespace goes and nothing else |
| `Text.LowerExactly` | backend/game_engine.py:506-506 | capitals become small letters and nothing else changes |
| `Scoring.Round` | backend/game_engine.py:233-240 | nearest integer, ties to even |
| `Scoring.RoundUnique` | backend/game_engine.py:233-240 | that determines the integer |
| `Scoring.ScoreRange` | backend/game_engine.py:209-240 | every guesser score lies in 45..750 |
| `Scoring.ScoreRangeTight` | backend/game_engine.py:209-240 | both bounds are reached |
| `Scoring.ScoreMonotone` | backend/game_engine.py:231-240 | a later or worse placed guess never earns more |
| `Scoring.ScoreExactly` | backend/game_engine.py:231-240 | the base is the even-tie nearest integer to 500 times the squared share of time left, at least 50, and the score the even-tie nearest integer to 3/2, 6/5, 1 or 9/10 of it for places 1, 2, 3 and others |
| `Scoring.ScoreOutside` | backend/game_engine.py:232-232 | a time before the turn counts as its start, and one after it as its end |
| `Scoring.FiftyReachedExactly` | backend/game_engine.py:226-240 | a score reaches 50 exactly in the first three places or from a base score of 55 on |
| `Scoring.MinimumFiftyExactly` | backend/game_engine.py:226-240 | the documented minimum of 50 holds for all times exactly for the first three places |
| `Scoring.DrawerBonusBounds` | backend/game_engine.py:243-258 | the bonus lies between the smallest and the largest guesser score |
| `Scoring.DrawerBonusExactly` | backend/game_engine.py:243-258 | the bonus is the even-tie nearest integer to the average, and 0 without guessers |
| `Scoring.SumConcat` | backend/game_engine.py:258-258 | the sum is additive |
| `Hints.InitialHintFair` | backend/game_engine.py:177-185 | the first hint shows no letter, shows every space and hides at least one letter of any word with one |
| `Hints.RevealFair` | backend/game_engine.py:188-206 | a reveal shows only the word's characters, gives away at most one more letter and never the last hidden one |
| `Hints.RevealExactly` | backend/game_engine.py:188-206 | with two hidden characters or more exactly one of them is shown, and with fewer none |
| `Hints.EveryHiddenCanShow` | backend/game_engine.py:202-205 | every hidden character can be the one |
| `Rotation.FirstEligible` | backend/game_engine.py:847-857 | the first connected non-spectator at or after an index |
| `Rotation.NextIsLeast` | backend/game_engine.py:822-880 | the next drawer sits at the lexicographically first later position with a connected non-spectator, at most one round on; the game ends only when no such position is left; it pauses exactly below two such players |
| `Rotation.FinishPosition` | backend/game_engine.py:832-865 | a game finishes at the start of the round after its last |
| `Rotation.EligibleExactly` | backend/game_engine.py:847-857 | the reference list of drawers is exactly the connected non-spectators, in order |
| `Rotation.FixedRosterGame` | backend/game_engine.py:808-880 | with a fixed roster the drawers from the start to the end are the connected non-spectators in list order, once per round |
| `FixedRoster.FixedRosterRun` | backend/room_manager.py:3235-3243 | from a reachable lobby, after start_game and through any order of selections, guesses and live or stale timers: the positions drawn are a prefix of those drawers, the game is over exactly when all of these turns have ended and then every one was drawn, and the live turn belongs to the position drawn last |
| `FixedRoster.AdvanceCourse` | backend/game_engine.py:822-880 | one advance takes the first of the drawers still to come, and ends the game only when none is left |
| `Rotation.FewSlots` | backend/game_engine.py:829-834 | strictly increasing positions are at most rounds times roster size |
| `GameSafety.TallyExact` | backend/game_engine.py:646-683 | each listed player's score changes by that player's entry in the broadcast payload; nothing is overwritten or paid twice; a drawer-disconnect payload is empty |
| `GameSafety.GuessersPaidExactly` | backend/game_engine.py:653-662 | the k-th correct guesser still present is paid the score of place k, and only guessers and the drawer are paid |
| `GameSafety.DrawerPaidInRange` | backend/game_engine.py:677-683 | a present drawer's entry is 0 without guessers and otherwise lies in 45..750 |
| `GameSafety.ScoresNeverDrop` | backend/game_engine.py:646-683 | ending a turn lowers nobody's score |
| `GameSafety.RunKeeps` | backend/game_engine.py:316-699 | every run of guesses, timers, selections, joins, removals, kicks, disconnects, reconnects, settings changes, host changes, rematches and restores on a new worker keeps the invariant |
| `GameSafety.RestoreKeeps` | backend/room_manager.py:245-303 | a room restored without timers, offers and countdowns goes on with its scores, guess order, hint and rotation in order |
| `GameSafety.LiveTurnSafe` | backend/game_engine.py:360-449 | in every reachable state: a live turn means PLAYING, its hint is truthful, at most two letters are given away and one stays hidden, and no turn is scored twice or while live |
| `GameSafety.StaleTimersIdle` | backend/game_engine.py:418-445 | a timer of any turn but the live one does nothing |
| `GameSafety.LiveTurnNotReplaced` | backend/game_engine.py:330-370 | no event replaces a live turn by another, changes its word, drawer or start, or drops a guess; a new worker changes its identity and start and nothing else |
| `GameSafety.GuessOrderExact` | backend/game_engine.py:479-518 | the guess order is duplicate-free, excludes the drawer and matches the flags of the players present |
| `GameSafety.CorrectGuessCounts` | backend/game_engine.py:506-533 | a correct guess ends the turn exactly when every other connected non-spectator but the drawer had guessed; then the turn's message pays the guesser for the last place, and otherwise the guesser joins the order and has the flag |
| `GameSafety.ScoresAreBroadcastTotals` | backend/game_engine.py:646-693 | over every run a player's score is the total of that player's turn_ended entries since it last started from zero |
| `GameSafety.DrawerDisconnectPaysNobody` | backend/game_engine.py:651-683 | when the drawer disconnects or is voted out, the turn ends with an empty payload and nobody's score changes |
| `GameSafety.AdvanceDrawsLater` | backend/game_engine.py:822-880 | with any roster, an advance that starts a turn names an in-range connected non-spectator at a strictly later position |
| `GameSafety.GameLengthBounded` | backend/game_engine.py:822-880 | under arbitrary roster changes a started game has at most rounds times the largest roster turns |
| `GameSteps.SelectWordExactly` | backend/game_engine.py:330-449 | a turn begins exactly when the player at the drawer index asks for an offered word: on that word, by that player, from now, fully hidden, with nobody having guessed, the word used and exactly its three timers added; any other request changes nothing |
| `GameSteps.AutoSelectExactly` | backend/game_engine.py:300-311 | when the time is up in WORD_SELECTION a word of the offer is selected, and any of them can be; otherwise nothing happens |
| `GameSteps.PayloadExactly` | backend/game_engine.py:646-683 | what each guesser and the drawer is paid, and nobody else |
| `GameSteps.DrawerShareExactly` | backend/game_engine.py:677-683 | a drawer who is still there gets the rounded average of the entries of the guessers who are still there |
| `GameSteps.PlacePaidByTime` | backend/game_engine.py:657-659 | a place is paid by the time from the start of the turn to the guess |
| `GameSteps.EndTurnExactly` | backend/game_engine.py:623-699 | the whole effect of the end of a turn: one announcement with the right entries, scores raised by them, the turn cleared, and the room waiting, over, or offering words to the next drawer |
| `GameSteps.TurnTimerExactly` | backend/game_engine.py:440-445 | the end timer of the live turn ends it |
| `GameSteps.HintTimerExactly` | backend/game_engine.py:418-437 | a hint timer of the live turn shows one of two or more hidden characters and changes nothing else |
| `GameSteps.OtherTimerExactly` | backend/game_engine.py:418-445 | any other timer does nothing |
| `GameSteps.MayGuessExactly` | backend/game_engine.py:466-504 | who may guess: a connected non-spectator other than the drawer who has not guessed, with at most 100 characters, in a live turn |
| `GameSteps.CorrectExactly` | backend/game_engine.py:506-506 | a guess is correct exactly when it is the word up to letter case and outer whitespace |
| `GameSteps.GuessExactly` | backend/game_engine.py:466-533 | the whole effect of a guess: flag, time and order for one that counts, the end of the turn when nobody is missing, and nothing for any other |
| `GameSteps.DisconnectExactly` | backend/room_manager.py:1345-1484 | the player is offline; a drawer ends the turn unpaid; with fewer than two who can draw the room waits; a turn with nobody missing ends; otherwise nothing else changes |
| `GameSteps.UnknownDisconnect` | backend/room_manager.py:1356-1364 | requests for an unlisted player change nothing |
| `GameSteps.CheckRosterExactly` | backend/room_manager.py:1469-1484 | those last three cases |
| `GameSteps.ReconnectExactly` | backend/room_manager.py:1588-1712 | the player is connected, and a countdown ends when two are |
| `GameSteps.JoinExactly` | backend/room_manager.py:532-626 | the newcomer stands last, connected and with nothing scored |
| `GameSteps.BecomePlayerExactly` | backend/room_manager.py:1211-1227 | a connected spectator, and nobody else, becomes a player from zero |
| `GameSteps.RemoveExactly` | backend/room_manager.py:1714-1772 | the player is out, the others keep their order, and a game under way with fewer than two connected waits |
| `GameSteps.KickExactly` | backend/room_manager.py:2900-2982 | the same for a player voted out, with the consequences of a disconnect |
| `GameSteps.WaitExpiresExactly` | backend/room_manager.py:1774-1831 | the game is over when the countdown ends with fewer than two connected |
| `GameSteps.StartGameExactly` | backend/room_manager.py:3191-3260 | the host starts a game from the lobby with two players or more: round one, the first who can draw, nobody ready; otherwise nothing happens |
| `GameSteps.RematchExactly` | backend/room_manager.py:2418-2492 | the host brings a finished game back to the lobby with everything at zero |
| `GameSteps.SettingsExactly` | backend/room_manager.py:2316-2417 | settings in range change as given, by the host and in the lobby only, and the others stay |
| `GameSteps.ChangeHostExactly` | backend/room_manager.py:2494-2550 | the host role goes to a listed player and nothing else changes |
| `GameSteps.RestoreExactly` | backend/room_manager.py:245-303 | everybody offline, and no offers, timers and countdowns |
| `GameRoom.Engine.ConnectedActive` | backend/game_engine.py:823-823 | the number of connected non-spectators |
| `GameRoom.Engine.SkipToDrawer` | backend/game_engine.py:847-877 | the walk reaches the first player who can draw, across at most one round end, and never goes full circle |
| `GameRoom.Engine.AdvanceTurnOrRound` | backend/game_engine.py:808-880 | the room ends in the state that the rotation rule describes |
| `GameRoom.Engine.StartTurn` | backend/game_engine.py:261-313 | word choices pending, state WORD_SELECTION |
| `GameRoom.Engine.PayGuessers` | backend/game_engine.py:653-662 | the loop over the guess order computes players, payload and scores of the tally |
| `GameRoom.Engine.ScoreTurn` | backend/game_engine.py:646-683 | guessers and drawer are paid as tallied |
| `GameRoom.Engine.EndTurn` | backend/game_engine.py:623-699 | the turn is scored, recorded and cleared, and the rotation advances |
| `GameRoom.Engine.HandleWordSelection` | backend/game_engine.py:316-449 | only the drawer and an offered word start a turn; flags are reset and three timers are pending |
| `GameRoom.Engine.AllGuessersDone` | backend/game_engine.py:526-531 | true exactly when every connected non-spectator but the drawer has guessed |
| `GameRoom.Engine.HandleGuess` | backend/game_engine.py:466-533 | the room ends in the state of the guess step |
| `GameRoom.Engine.FireTimer` | backend/game_engine.py:418-449 | a timer acts on its own live turn only |
| `GameRoom.RevealHintChar` | backend/game_engine.py:188-206 | the loop reveals the picked hidden character, stays truthful and keeps one hidden |
| `ChatMask.FilterProfanity` | backend/game_engine.py:41-53 | the loop joins the censored tokens |
| `ChatMask.SplitKeepsLetters` | backend/game_engine.py:45-45 | the tokens hold every character that is not whitespace, in order |
| `ChatMask.CensorExactly` | backend/game_engine.py:46-52 | a listed token becomes as many stars, and any other stays |
| `ChatMask.MaskHides` | backend/game_engine.py:605-607 | leftmost replacement leaves no occurrence of a word without stars at its ends and without three stars in a row |
| `ChatMask.FilterAddsNoLeak` | backend/game_engine.py:41-53 | split, censor and join show a word without whitespace and leading star only if the text did |
| `ChatMask.ChatHidesWord` | backend/game_engine.py:605-608 | broadcast chat never contains a word without whitespace that has no star at its ends and no three stars in a row, in any letter case |
| `ChatLeaks.HiddenWordsExactly` | backend/game_engine.py:41-53 | for every non-empty word and every profanity list: it is hidden for every text exactly when, without whitespace, it has no star at its ends and no three stars in a row, or, with whitespace, that is not just isolated spaces or a token between two of them is censored |
| `ChatLeaks.MaskExactly` | backend/game_engine.py:605-607 | the first occurrence becomes three stars, and masking goes on behind it |
| `ChatLeaks.SpacedWordLeaks` | backend/game_engine.py:41-53 | a word with isolated spaces and no censored token between them, typed with tabs and padded, comes out in full whatever the list |
| `ChatLeaks.CensoredInsideHides` | backend/game_engine.py:46-52 | a word with a censored token between two spaces comes out of no text |
| `ChatLeaks.StarWordLeaks` | backend/game_engine.py:605-608 | every other word without whitespace gets through in some text, whatever the list |
| `ChatLeaks.LeadingStarLeaks` | backend/game_engine.py:605-608 | a word with a leading star, padded and followed by its tail, comes out behind the mask |
| `ChatLeaks.TrailingStarLeaks` | backend/game_engine.py:605-608 | the padded head of a word with a trailing star, followed by the word, comes out before the mask |
| `ChatLeaks.StarRunLeaks` | backend/game_engine.py:605-608 | a word around three stars is spelled by the mask in the middle of it |
| `RoomManager.LookupIsScan` | backend/models.py:94-104 | lookup through players_by_id equals the scan of the list |
| `Models.WithoutExactly` | backend/models.py:89-92 | removing a player leaves the others in their order |
| `Models.CountsExactly` | backend/game_engine.py:823-823 | the counts are the numbers of connected, active and drawing players |
| `RoomSafety.FindRoomExact` | backend/room_manager.py:2287-2303 | the indexed search finds exactly the room that lists the player |
| `RoomSafety.ScanFindsNothingNew` | backend/room_manager.py:2292-2303 | the linear fallback never finds what the index misses |
| `RoomSafety.NextHostListed` | backend/room_manager.py:1315-1319 | the next host is a listed connected player whenever someone is connected |
| `RoomSafety.CreateKeeps` | backend/room_manager.py:369-385 | creating a room keeps indexes, hosts and capacities in order |
| `RoomSafety.JoinKeeps` | backend/room_manager.py:532-626 | so does joining, within 12 players and 50 spectators |
| `RoomSafety.AcceptRoleKeeps` | backend/room_manager.py:1211-1227 | so does accepting a spectator as player |
| `RoomSafety.LeaveKeeps` | backend/room_manager.py:3010-3051 | so does leaving the lobby |
| `RoomSafety.RemoveKeeps` | backend/room_manager.py:1293-1322 | so does removing a player |
| `RoomSafety.ExpireKeeps` | backend/room_manager.py:1714-1745 | so does the end of the grace window |
| `RoomSafety.HostKickKeeps` | backend/room_manager.py:2647-2700 | so does a kick by the host |
| `RoomSafety.TransferHostKeeps` | backend/room_manager.py:2504-2550 | so does handing over the host role |
| `RoomSafety.ReassignHostKeeps` | backend/room_manager.py:1486-1504 | so does reassigning an absent host |
| `RoomSafety.ExecuteKickKeeps` | backend/room_manager.py:2900-2928 | a vote-kick leaves a present host because a connected voter remains |
| `RoomSafety.NoImmediatePass` | backend/room_manager.py:2756-2786 | with three connected players one vote never suffices |
| `RoomSafety.StartVoteOnlyVotes` | backend/room_manager.py:2718-2805 | starting a vote changes nothing but the votes: the immediate-pass branch is not taken |
| `RoomSafety.DisconnectKeeps` | backend/room_manager.py:1345-1427 | a disconnect with its vote and host consequences keeps everything in order |
| `RoomSafety.EveryRunKeeps` | backend/room_manager.py:85-110 | in every state that a run reaches from the empty registry or any other in order: list, index and map agree, the host is present, and rooms not restored from a snapshot keep to 12 players and 50 spectators |
| `RoomSteps.AdmitsExactly` | backend/room_manager.py:609-619 | there is room below the configured maximum and 12 players, and below 50 spectators |
| `RoomSteps.NextHostExactly` | backend/room_manager.py:1315-1319 | the first connected non-spectator in list order, or else the first connected player, and none exactly when nobody is connected |
| `RoomSteps.CreateExactly` | backend/room_manager.py:369-385 | a new room has its creator as only player and host |
| `RoomSteps.RestoreExactly` | backend/room_manager.py:278-300 | a restored room is registered with all its players |
| `RoomSteps.JoinExactly` | backend/room_manager.py:532-626 | a join is admitted exactly when the room exists, state or approval allow it and there is room; the player stands last in list, index and map; otherwise nothing changes |
| `RoomSteps.AcceptRoleExactly` | backend/room_manager.py:1211-1227 | a connected spectator becomes a player from zero exactly when there is room |
| `RoomSteps.ReconnectExactly` | backend/room_manager.py:1662-1690 | a member who comes back is connected again |
| `RoomSteps.LeaveExactly` | backend/room_manager.py:3010-3051 | in the lobby only; the last one out closes the room; a host is followed by the first of the others |
| `RoomSteps.RemoveExactly` | backend/room_manager.py:1293-1322 | the last one out closes the room; a host is followed by the next in line or the first of the others |
| `RoomSteps.OthersInOrder` | backend/models.py:89-92 | those who stay keep their order |
| `RoomSteps.ExpireExactly` | backend/room_manager.py:1714-1745 | a room in which nobody else is connected goes; otherwise a host is followed by the next in line |
| `RoomSteps.HostKickExactly` | backend/room_manager.py:2647-2700 | the host, in the lobby, takes out another listed player, and nobody else can |
| `RoomSteps.ExecuteKickExactly` | backend/room_manager.py:2919-2928 | the target goes, and a host is followed by the next in line |
| `RoomSteps.TransferHostExactly` | backend/room_manager.py:2494-2550 | the host hands over to another connected non-spectator, and otherwise nothing changes |
| `RoomSteps.ReassignHostExactly` | backend/room_manager.py:1486-1504 | a host still away is followed by the next in line; with nobody connected a room outside a game goes |
| `VoteSafety.VoteRunOk` | backend/room_manager.py:2718-2898 | over every run, whatever its events, only connected players other than the target hold votes, apart from players who left after voting or started the vote while offline |
| `VoteSafety.StartVoteOk` | backend/room_manager.py:2772-2805 | a new vote is in order exactly when its initiator is connected, or counted among the strays |
| `VoteSafety.CountPassesExactly` | backend/room_manager.py:2867-2881 | a count passes exactly when the votes are more than half as many as the connected players other than the target |
| `VoteSafety.BackedExactly` | backend/room_manager.py:2867-2881 | the votes of those who may vote are a strict majority exactly when they suffice without the stray ones |
| `VoteSafety.KicksNeedMajority` | backend/room_manager.py:2838-2881 | at every step of every run, whoever is taken out of a room that stays, otherwise than by leaving, expiry, removal or the host, is the target of that room's vote; the event is a vote or disconnect of another member; the votes counted at that step pass, their strays are players who left after voting or started while offline, and in a run where nobody goes while holding a vote or starts one while offline they are a strict majority of the connected non-target players |
| `VoteSafety.VotesWereCast` | backend/room_manager.py:2790-2860 | every vote held in a run was given by its holder, in this room and against this target |
| `VoteSafety.StepKicksByMajority` | backend/room_manager.py:1369-1409 | the same for a single vote or disconnect in any state: a kick that a disconnect makes due counts the votes left over the voters left |
| `VoteSafety.DepartureVotesExactly` | backend/room_manager.py:3010-3051 | leaving, expiry, removal and a kick by the host keep the vote set in order exactly when the one who goes had not voted |
| `VoteSteps.StartVoteExactly` | backend/room_manager.py:2718-2805 | a vote starts exactly when there is none, the target is another connected member, three are connected and none is cooling down |
| `VoteSteps.CastVoteExactly` | backend/room_manager.py:2838-2898 | a vote counts exactly for connected members other than the target; the target goes exactly when the votes are then more than half of the voters, and exactly otherwise the vote stays, with that ballot |
| `VoteSteps.CastNothing` | backend/room_manager.py:2838-2852 | without a room or a vote in it nothing is cast |
| `VoteSteps.DisconnectVoteExactly` | backend/room_manager.py:1369-1427 | after a disconnect the vote goes on, without the leaver's ballot, exactly when the leaver was not its target, two voters or more remain and the remaining votes do not suffice; its target goes exactly when they do; the room goes exactly with a host who was the last one connected outside a game |
| `VoteSteps.DisconnectQuietly` | backend/room_manager.py:1345-1427 | the same without a vote: the member is offline, and nothing else changes |
| `VoteSteps.VoteTimeoutExactly` | backend/room_manager.py:2984-2990 | a timeout ends the vote it was set for and no other |
| `VoteExample.LeaverRunLegal` | backend/room_manager.py:2718-2805 | a run of a creation, two joins, a vote and the departure of its initiator leaves the room with the departed vote |
| `VoteExample.LeaverKeepsVote` | backend/room_manager.py:2838-2881 | after that run the departed player's vote decides: the only remaining voter votes against the kick, and the target is removed |
| `RoomRegistry.Registry.FindRoomByPlayer` | backend/room_manager.py:2287-2303 | finds the player's room and changes nothing |
| `RoomRegistry.Registry.DeleteRoom` | backend/room_manager.py:105-132 | room, its players' map entries and its vote are gone |
| `RoomRegistry.Registry.Admit` | backend/room_manager.py:532-626 | adds a player to list, index and map when state and capacity allow, and otherwise changes nothing |
| `RoomRegistry.Registry.JoinRoom` | backend/room_manager.py:532-626 | the same, keeping the registry valid |
| `RoomRegistry.Registry.PickHost` | backend/room_manager.py:1315-1321 | the first connected player, with or without spectators |
| `RoomRegistry.Registry.PermanentlyRemovePlayer` | backend/room_manager.py:1714-1745 | removal, room deletion and host reassignment as specified, keeping the registry valid |
| `RoomRegistry.Registry.LeaveRoom` | backend/room_manager.py:3010-3051 | leaving as specified, keeping the registry valid |
| `RoomRegistry.Registry.ExecuteVoteKick` | backend/room_manager.py:2919-2928 | the target is out and a host who was the target is replaced |
| `RoomRegistry.Registry.CountVotes` | backend/room_manager.py:2867-2881 | the vote ends and the target goes when the votes reach the majority |
| `RoomRegistry.Registry.CastVoteKick` | backend/room_manager.py:2838-2881 | casting as specified, keeping the registry valid |
| `RoomRegistry.Registry.Withdraw` | backend/room_manager.py:1369-1409 | a disconnect cancels, shrinks or completes the vote |
| `RoomRegistry.Registry.HandleDisconnect` | backend/room_manager.py:1345-1427 | disconnecting as specified, keeping the registry valid |
| `Snapshot.RestoreRoom` | backend/room_manager.py:245-303 | the loop rebuilds the room of the snapshot |
| `Snapshot.RestoreInvertsSnapshot` | backend/room_manager.py:202-303 | restoring gives back the whole room with everybody offline and a fresh turn clock; the turn is lost exactly outside PLAYING and WORD_SELECTION |
| `Snapshot.RestoreIsGameStep` | backend/room_manager.py:245-303 | restoring the snapshot of a room in play is the step that game runs take through a new worker |
| `Snapshot.RestoredRoomSound` | backend/room_manager.py:273-298 | the restored room's indexes agree and its host is present |
| `Snapshot.ReachableTurnSurvives` | backend/room_manager.py:287-296 | no room that play reaches loses its turn |
| `Snapshot.SecondSnapshot` | backend/room_manager.py:202-243 | a second snapshot differs only in connection and time fields and in the listing order of the set of used words |
| `Snapshot.ParseStateExactly` | backend/room_manager.py:256-260 | the four state names read back, and any other counts as the lobby |
| `Snapshot.SaveConfigExactly` | backend/room_manager.py:192-218 | a room is private, and its password saved, exactly when it has one |
| `BoundedQueue.RunAccounted` | gateway/fanout.go:105-148 | over every run of offers and receives: within capacity, in order, exactly one fate per offer, only lossy messages refused, evictions only by must-deliver messages at least capacity offers later |
| `BoundedQueue.MustDeliverNeverRefused` | backend/virtual_transport.py:145-164 | a must-deliver message is never refused |
| `BoundedQueue.SendQueue.Offer` | gateway/fanout.go:105-148 | the channel and the counters after one offer; the second send of an eviction succeeds |
| `BoundedQueue.SendQueue.Enqueue` | gateway/fanout.go:105-148 | the queue holds what the ledger says, which stays accounted |
| `BoundedQueue.SendQueue.Receive` | gateway/session.go:284-287 | the oldest message comes out |
| `Broadcast.BroadcastRoom` | backend/room_manager.py:1878-1936 | one room-wide message on the only queue exactly when all connected players share one stream and none has a socket; otherwise exactly one send for each connected local player, in list order, over that player's socket or stream |
| `Broadcast.FastPathExactly` | backend/room_manager.py:1906-1906 | when the fast path is taken, in terms of the players' transports |
| `Broadcast.Survey` | backend/room_manager.py:1878-1896 | the distinct queues and whether a socket is in use |
| `Broadcast.SendEach` | backend/room_manager.py:1921-1936 | exactly one send for each connected local player, in list order, with the payload and the class |
| `Broadcast.FanOutDispatcher.DeliverMessage` | gateway/fanout.go:31-72 | room-wide and targeted delivery into the sessions' queues |
| `Broadcast.TargetsExactly` | gateway/fanout.go:59-71 | a message with several targets is offered once to each of their sessions and to no other |
| `Broadcast.NowhereToGo` | gateway/fanout.go:46-51 | a message without targets and room reaches nobody |
| `Broadcast.FastPathEqualsPerPlayer` | backend/room_manager.py:1861-1912 | when the gateway's sessions of the room are the connected players, the fast path with one free slot in the stream queue leaves every session as per-player sends would with all the slots they need, and so as those sends when they fit |
| `Broadcast.StreamDropsLast` | backend/virtual_transport.py:145-153 | lossy per-player sends that do not fit reach only as many players as there are slots |
| `Broadcast.StreamKeepsNewest` | backend/virtual_transport.py:145-164 | must-deliver sends that do not fit leave the newest messages of the queue and the broadcast together, and evict all older ones |
| `Broadcast.RoomWideEqualsTargeted` | gateway/fanout.go:46-71 | one room-wide message equals one targeted message per session of the room |
| `Broadcast.FastPathDeliversOnce` | gateway/fanout.go:46-57 | with space in the queue each session of the room gets the payload once and no other session does |
| `Broadcast.NobodyTwice` | backend/room_manager.py:1906-1936 | whatever transports the players have, no session is offered a broadcast twice |
| `Broadcast.TwoRoomWideReachTwice` | backend/room_manager.py:1869-1877 | a room-wide message on each of two streams would reach every session twice |
| `Broadcast.StreamKeepsAll` | backend/virtual_transport.py:145-148 | a stream queue with space passes all messages on in order |
| `SessionRegistry.PlayerSession.CloseDone` | gateway/session.go:228-229 | only an open channel is closed |
| `SessionRegistry.Registry.Register` | gateway/session.go:59-88 | the new session is registered, a previous one of the player is closed, all others are untouched, and the indexes agree |
| `SessionRegistry.Registry.Unregister` | gateway/session.go:93-103 | the session is closed and gone from both indexes |
| `SessionRegistry.Registry.Update` | gateway/session.go:109-144 | a new session with the same identity replaces the closed one |
| `SessionRegistry.Registry.UpdateIdentity` | gateway/session.go:153-186 | the same object is re-keyed in place with its channel open; a session displaced from the new id is left open |
| `SessionRegistry.Registry.RemoveLocked` | gateway/session.go:227-239 | removal from both indexes |
| `SessionRegistry.Registry.DropFromRooms` | gateway/session.go:164-170 | players leave every room map and empty maps are deleted |
| `SessionRegistry.Registry.GetByRoom` | gateway/session.go:190-207 | each session whose room code matches, once, as filtering all sessions would give |
| `SessionRegistry.Registry.GetByPlayer` | gateway/session.go:210-215 | the session under its own id, with its channel open |
| `SessionRegistry.Registry.RoomMapIsFilter` | gateway/session.go:197-206 | a room's map holds exactly the sessions with that room code |
| `SessionRegistry.DropAgrees` | gateway/session.go:162-170 | dropping players keeps the two indexes in agreement |
| `SessionRegistry.AddAgrees` | gateway/session.go:178-185 | entering a session keeps the two indexes in agreement |
| `WritePump.WritePump` | gateway/session.go:279-391 | the frames of a whole queue; a client reads back exactly the queue if and only if no text burst drained a binary frame |
| `WritePump.DrainBinary` | gateway/session.go:299-332 | binary messages are concatenated until a text message, the limit or an empty channel |
| `WritePump.DrainText` | gateway/session.go:349-388 | the burst loop, including the buffer it keeps after a flush |
| `WritePump.ReadsBackExactly` | gateway/session.go:279-391 | for every queue of well-formed messages and every batching: read back in order if and only if unmixed |
| `WritePump.FlushedTextRepeats` | gateway/session.go:364-376 | after a flush in a text burst the last frame repeats the flushed text with more after it, and does not read |
| `WritePump.FramesAreSmall` | gateway/session.go:299-352 | every frame of an unmixed batching carries between 1 and 64 messages |
| `WritePump.BatchSizeExactly` | gateway/session.go:289-352 | how many messages a burst takes |
| `WritePump.SafeQueuesExactly` | gateway/session.go:289-388 | a queue survives every batching exactly when coalescing is off or no text message is directly followed by a binary one |
| `WritePump.ReadJoined` | gateway/session.go:354-383 | the coalesced JSON array reads as its items, and not at all with anything after its closing bracket |
| `Delivery.ClientReadsExactly` | gateway/session.go:279-391 | for every run of offers and receives on a channel and every cutting into bursts: the client reads exactly the messages received, in order, if and only if no text burst drains a binary message, and every other offer is accounted for |
| `Delivery.ClientAlwaysReadsExactly` | gateway/session.go:289-388 | that holds for every cutting exactly when nothing is coalesced or no text message is received directly before a binary one |
| `JsonText.ObjectTextWellFormed` | gateway/session.go:354-383 | every JSON object text of RFC 8259, with whitespace wherever it may stand, is delimited by its closing brace, as the reading of arrays needs |
| `StrokeCodec.EncodeBinaryStroke` | loadtest/main.go:669-686 | the buffer filled by offset is header, wrapped 16-bit count and big-endian points |
| `StrokeCodec.StrokeBytesExactly` | loadtest/main.go:669-686 | every byte: opcode, colours and size in order, the count, and each point as two big-endian numbers nearest to its clamped coordinates |
| `StrokeCodec.StrokePointsRoundTrip` | loadtest/main.go:680-684 | reading the encoded points gives back the clamped and rounded points |
| `StrokeCodec.CountBinaryOps` | loadtest/main.go:688-714 | the number of operations begun, at least one |
| `StrokeCodec.OpLengthExactly` | loadtest/main.go:693-707 | the length of each kind of operation, and what is unreadable |
| `StrokeCodec.OpsExactly` | loadtest/main.go:690-714 | one operation for every end, and one for an unreadable rest |
| `StrokeCodec.StrokeBoundariesExactly` | loadtest/main.go:669-714 | concatenated strokes split at the original frame ends exactly when each has at most 65535 points |
| `StrokeCodec.CountsEveryStroke` | loadtest/main.go:688-714 | and then count as that many operations |
| `StrokeCodec.SplitFlatten` | gateway/session.go:303-313 | any burst of self-delimiting operations splits back into them |
| `Resolver.WorkerResolver.Resolve` | gateway/resolver.go:36-66 | a fresh entry answers; otherwise the registry does and fills the cache |
| `Resolver.WorkerResolver.Evict` | gateway/resolver.go:85-87 | the worker's entry is gone |
| `Resolver.WorkerResolver.Prune` | gateway/resolver.go:112-119 | exactly the entries older than twice the time-to-live are gone |
| `Resolver.ResolvedAddressesRecent` | gateway/resolver.go:36-66 | over every run each resolved address was held by the registry at the reply or less than the time-to-live before |
| `Resolver.RepliesExactly` | gateway/resolver.go:36-66 | over every run each resolve is answered once: with the address of the last refill while that is younger than the time-to-live and not evicted or cleaned up since, otherwise with the registry's address of now, "not registered" exactly when it has none and a failure exactly when it is down |
| `Resolver.PruneExactly` | gateway/resolver.go:112-119 | exactly the entries older than twice the time-to-live go |
| `Resolver.PruningInvisible` | gateway/resolver.go:103-122 | leaving out every pruning changes no reply |

## Left out

- Redis, gRPC, WebSocket and HTTP calls, metrics, logging and heartbeats: I/O.
- Proxy rooms and worker-to-worker calls: only the owner's admission check is modelled, as a join.
- Gateway ownership of rooms, stream reconnection, `gateway/buffer.go` and round-robin choice.
- Passwords, display-name validation and the pending-request objects of mid-game joins: a join with the host's approval is one step.
- Word pools and packs: the words offered to a drawer are a parameter.
- Streaks, awards and session statistics: they do not influence the game.
- Task cancellation: cancelled timers may still fire in the model, which is more general.
- Write errors and closed channels in the write pump: it then stops after a prefix of the frames.
- Letter case and `isalnum` beyond ASCII; the profanity list is a parameter that the theorems quantify over.
- An empty secret word: word lists and custom words contain none.
- `GuessFeedback.EchoLeaksExactly`: words with outer whitespace, because custom words are stripped (`backend/room_manager.py:2384-2397`) and word lists hold none.
- Queue sizes of zero, which `asyncio.Queue` takes as unbounded.
- Players as shared mutable objects: the room model updates list and index together.
- `Snapshot.RestoreInvertsSnapshot`: a restored player has no recorded guess time; the model gives it the time of the restore.
- Capacity of restored rooms and of rooms whose maximum is lowered: the source does not keep it.
