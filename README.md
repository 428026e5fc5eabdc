# BooxClash knockout games and lesson widgets, modelled in Dafny

BooxClash is a quiz platform for students, with a live quiz room and a few lessons. This project
models the logic behind its games and lessons. Socket events, DOM rendering, timers and random
choices are left out or turned into plain parameters.

- **Knockout engine** (`knockout_engine.dfy`, `knockout_tournament.dfy`). This is the
  two-player knockout tournament of `Vanila/main.js`, also copied into
  `frontend/src/PlayGround.tsx`.
  - Each match is played in turns: at most three questions, and the first player to two points
    wins.
  - When neither player reaches two points, a coin flip decides.
  - Winners are queued for the next round. Each stage is announced once: knockout, semi-finals,
    finals.
  - `KnockoutEngine` states the handlers `nextPair`, `handleAnswer`, `evaluatePair` and
    `renderStageIntro` as step functions on one state value, and proves what they keep and how a
    tournament proceeds.
  - The class `KnockoutTournament.Tournament` keeps the same state as fields updated in place.
    Each method is proved to move the object exactly as its step function moves the state.
- **React-state copy** (`knockout_backup.dfy`). This is the copy of the engine that keeps React
  state, `Knockout/backup.tsx`.
  - A handler reads one render's state snapshot and requests updates.
  - The model shows what the handler sees and what React makes of the requests.
- **Single-question pairing game** (`knockout_pairing.dfy`, from `Knockout/PlayGround.tsx`).
- **Socket server** (`game_socket.dfy`). This is the room server `backend/sockets/gameSocket.js`.
  The class `RoomRegistry` holds the room map and its insertion order. Each handler is proved
  against a pure function of one room.
- **Page and lesson rules**, one module per component:
  - the waiting room;
  - the player's game room page;
  - the question card;
  - the timed quiz;
  - the topic grid;
  - the lesson text helpers;
  - the coordinate-plane lesson;
  - the counting-sticks lesson;
  - the order-of-operations lesson.
- **Shared helpers:** `Wrappers` holds the `Option` type and JavaScript string truthiness.
  `Shuffle` replaces the random `sort` by an explicit list of transpositions. It is proved to
  reach every permutation, so no behaviour is lost.

Some findings come out of the proofs. Each one is stated as a lemma about the code as written.

- **Champion dropped.** The bye logic of `nextPair` loses the champion.
  - `evaluatePair` still shows its "Ultimate Champion" result after a match in round 3 or later
    (`Verdict.finalsScreen`).
  - What is lost is `nextPair`'s own winner screen: the `🏆 Winner:` screen of main.js:89 and
    :115, the model's outcome `WinnerShown`. After the final the champion is the only advancing
    player, and that screen's test never fires, because `winners` is never filled.
  - The copies' `nextPair` then ends in a recursion on an empty state.
  - See `NextPairOutcomes`, `StuckRecursionMakesNoProgress` and `ChampionDropped`.
- **Unreachable branch.** main.js's `>=` tie-break can never run, so the two copies agree
  (`CopiesAgree`).
- **`backup.tsx` never pairs.** Its `nextPair` cannot see its own refill, so the first call after
  the start effect recurses on the same snapshot.
- **`backup.tsx` judges on stale scores.** The settle callback runs the `evaluatePair` of the
  render that handled the answer, so the winning point is not in the scores it reads. A player
  who reaches 2 against at most 1 is judged at 1 against at most 1, and the coin decides
  (`StaleScoresLeaveItToTheCoin`).
- **Last winner lost.** `Knockout/PlayGround.tsx` drops the last pair's winner when it re-pairs
  the players.

## Model

| member | source | states |
|---|---|---|
| Shuffle.Shuffle | Vanila/main.js:38-40 | the shuffled sequence has the same length and the same multiset of elements as the input |
| Shuffle.ShuffleReachesEvery | Vanila/main.js:38-40 | every rearrangement of the input is produced by some list of transpositions |
| KnockoutEngine.StageIntro | Vanila/main.js:48-84 | an intro is shown iff the round names a stage whose flag is unset; showing it sets exactly that flag; the finals count 10 s, the others 5 s; with no intro the flags stay |
| KnockoutEngine.IntrosShownOnce | Vanila/main.js:42-62 | over any sequence of announced rounds, no stage intro appears twice, none appears whose flag was already set, and at most three are shown |
| KnockoutEngine.InitialInv | Vanila/main.js:311-315 | the start state satisfies the tournament invariant and waits for the first `nextPair` |
| KnockoutEngine.StuckRecursionMakesNoProgress | Vanila/main.js:113-123 | from a state with empty pool, advancing list and winners, `nextPair` calls itself again with at most the round changed |
| KnockoutEngine.NextPairOutcomes | Vanila/main.js:86-134 | on reachable states `nextPair` never shows the winner; it pairs iff the pool has two players or is empty with two advancing; otherwise it is stuck with both lists emptied |
| KnockoutEngine.PairTakenFifo | Vanila/main.js:125-130 | a new pair is the two front pool players, removed from the pool, with both scores, the question index and the turn reset and all other scores kept |
| KnockoutEngine.RefillFromAdvancing | Vanila/main.js:93-103 | an empty pool is refilled with a permutation of the advancing players, which are cleared; the round goes up only past round 1 or once its intro was shown |
| KnockoutEngine.FirstPairingInRoundOne | Vanila/main.js:94-133 | the first `nextPair` after the start pairs in round 1 and shows the 5 s knockout intro |
| KnockoutEngine.NextPairKeepsFlags | Vanila/main.js:52-62 | `nextPair` never clears a stage flag |
| KnockoutEngine.NextPairInv | Vanila/main.js:86-134 | `nextPair` preserves the tournament invariant |
| KnockoutEngine.AnswerScoring | Vanila/main.js:199-205 | only an answer equal to the correct option scores, by exactly one point, for the player whose turn it is; a timeout never scores; nothing else but the scores changes |
| KnockoutEngine.AnswerTurns | Vanila/main.js:211-225 | reaching 2 judges the pair without toggling the turn; otherwise the turn toggles, the question index rises when the turn returns to the first player, and the pair is judged iff the index reaches 3 |
| KnockoutEngine.AnswerInv | Vanila/main.js:199-226 | an answer preserves the invariant and leads to the next question exactly when the state still awaits an answer |
| KnockoutEngine.AnswerAdvances | Vanila/main.js:216-220 | each answer that does not end the match raises the count of answers given by exactly one, and the count stays below 6 |
| KnockoutEngine.AtMostSixAnswers | Vanila/main.js:216-225 | whatever the answers, a pair is judged after at most 6 of them |
| KnockoutEngine.ThresholdWins | Vanila/main.js:251-259 | in both copies, a score of 2 against a score of at most 1 advances the player with 2 |
| KnockoutEngine.LowScoresCoinFlip | Vanila/main.js:251-253 | with both scores at most 1 the coin alone decides, even at 1-0 |
| KnockoutEngine.VerdictRecords | Vanila/main.js:242-268 | the verdict advances one pair member and eliminates the other, appends the advancer, raises the loser's count by exactly 1, changes nothing else and keeps the invariant |
| KnockoutEngine.MainGreaterEqualBranchUnreachable | Vanila/main.js:260-262 | on reachable states two distinct players never both score above 1, so the `>=` branch is dead |
| KnockoutEngine.CopiesAgree | frontend/src/PlayGround.tsx:250-258 | the three-branch verdict of PlayGround.tsx and the four-branch one of main.js give the same result on every reachable state |
| KnockoutEngine.MatchFollowsTally | Vanila/main.js:94-130 | whatever the answers and coins, a played match moves the pool size, advancing count, round and round-1 flag as the tally rule says; no match is played when the rule allows none, and with six answers at hand one always is when it allows one |
| KnockoutEngine.EightPlayerSchedule | Vanila/main.js:94-133 | example for eight players: four matches in round 1, two in round 2 and one in round 3, then no more |
| KnockoutEngine.EightPlayerStart | Vanila/main.js:312-313 | example: the start sequence with eight players yields the starting tally of the schedule |
| KnockoutEngine.ChampionDropped | Vanila/main.js:86-123 | with the champion as the only advancing player, `nextPair` is stuck and both lists end empty, so `nextPair`'s own winner screen (the `🏆 Winner:` screen of main.js:89 and :115, the outcome `WinnerShown`) is never shown; the finals verdict screen of `evaluatePair` is a separate screen and is not affected |
| KnockoutTournament.Tournament.Start | Vanila/main.js:311-315 | the object holds the start state (shuffled players, empty winners, round 1, no flags) and the invariant |
| KnockoutTournament.Tournament.RenderStageIntro | Vanila/main.js:48-84 | the intro returned and the new flags are those of `StageIntro`; no other field changes |
| KnockoutTournament.Tournament.RefillAndBye | Vanila/main.js:93-110 | the object becomes the refilled pool followed by the bye step |
| KnockoutTournament.Tournament.TakeFrontPair | Vanila/main.js:126-130 | the object becomes the state with the front pair taken |
| KnockoutTournament.Tournament.NextPair | Vanila/main.js:86-134 | the new state and outcome are those of `NextPairStep`, recursion included, and the invariant is kept |
| KnockoutTournament.Tournament.HandleAnswer | Vanila/main.js:199-226 | the new state and next step are those of `AnswerStep`, and the invariant is kept |
| KnockoutTournament.Tournament.EvaluatePair | Vanila/main.js:242-268 | the new state and verdict are those of `VerdictStep` for this copy, and the invariant is kept |
| KnockoutBackup.ShuffleIsPermutedCopy | frontend/src/StudentDashboard/Games/Knockout/backup.tsx:99 | the contract of `Shuffle.Shuffle`, stated again for this file's `shuffle`: it returns a rearrangement of its argument |
| KnockoutBackup.StageIntroRequestAgrees | frontend/src/StudentDashboard/Games/Knockout/backup.tsx:101-137 | the functional flag update shows the same intro and sets the same flags as the in-place copies |
| KnockoutBackup.RefillNotSeen | frontend/src/StudentDashboard/Games/Knockout/backup.tsx:150-175 | with an empty snapshot pool the refill is requested, and would hold every advancing player, yet the call tests the old pool and diverges |
| KnockoutBackup.ShortPoolDiverges | frontend/src/StudentDashboard/Games/Knockout/backup.tsx:166-175 | with no winners, a snapshot pool below two players always diverges |
| KnockoutBackup.FirstCallDiverges | frontend/src/StudentDashboard/Games/Knockout/backup.tsx:389-396 | the start effect runs and its `nextPair` diverges, so no pair is ever shown |
| KnockoutBackup.NewPairRequests | frontend/src/StudentDashboard/Games/Knockout/backup.tsx:178-188 | with two pool players (which rules out the winner test) the requests set the front pair, a score map of just their ids at 0, index and turn 0, drop the pair from the pool, change nothing else but the flags |
| KnockoutBackup.AnswerThreshold | frontend/src/StudentDashboard/Games/Knockout/backup.tsx:274-291 | the processed score of the current player is the snapshot score plus the new point, other scores stay, and reaching 2 judges without toggling the turn |
| KnockoutBackup.AnswerQuestionCap | frontend/src/StudentDashboard/Games/Knockout/backup.tsx:293-304 | otherwise the turn toggles, the index rises on return to the first player, and another question is asked iff the snapshot index is below 2 |
| KnockoutBackup.ThirdQuestionCutShort | frontend/src/StudentDashboard/Games/Knockout/backup.tsx:295-304 | on the third question this copy judges after the first player where main.js still asks the second |
| KnockoutBackup.VerdictRequests | frontend/src/StudentDashboard/Games/Knockout/backup.tsx:321-342 | the three-branch verdict on snapshot scores (missing read as 0); the advancer is appended and the loser's count rises by 1, nothing else |
| KnockoutBackup.StaleScoresLeaveItToTheCoin | frontend/src/StudentDashboard/Games/Knockout/backup.tsx:288-289 | a correct answer that makes 2 against at most 1 leads to the verdict with 2 in the processed scores, but the verdict of the same snapshot reads 1 and is decided by the coin alone |
| KnockoutPairing.PairsOfAt | frontend/src/StudentDashboard/Games/Knockout/PlayGround.tsx:108-114 | there are floor(n/2) pairs, the k-th made of players 2k and 2k+1 |
| KnockoutPairing.PairsThenBye | frontend/src/StudentDashboard/Games/Knockout/PlayGround.tsx:108-114 | the pairs' members in order followed by the bye give back the players |
| KnockoutPairing.PairsPartition | frontend/src/StudentDashboard/Games/Knockout/PlayGround.tsx:105-116 | every player is in exactly one pair or in the bye |
| KnockoutPairing.PairPlayers | frontend/src/StudentDashboard/Games/Knockout/PlayGround.tsx:105-116 | the loop sets floor(n/2) pairs of consecutive shuffled players and queues the odd last one |
| KnockoutPairing.OutcomeCorrect | frontend/src/StudentDashboard/Games/Knockout/PlayGround.tsx:122-130 | a correct selection makes player 1 the winner and player 2 the loser |
| KnockoutPairing.OutcomeWrong | frontend/src/StudentDashboard/Games/Knockout/PlayGround.tsx:122-130 | a wrong non-empty selection makes player 2 the winner and player 1 the loser |
| KnockoutPairing.OutcomeTimeout | frontend/src/StudentDashboard/Games/Knockout/PlayGround.tsx:122-130 | a timeout or empty selection reports player 2 as both winner and loser |
| KnockoutPairing.HandleNextAdvances | frontend/src/StudentDashboard/Games/Knockout/PlayGround.tsx:132-139 | while pairs remain, winner and loser are recorded and both indices advance by one |
| KnockoutPairing.HandleNextSummary | frontend/src/StudentDashboard/Games/Knockout/PlayGround.tsx:140-142 | after the last pair with no earlier winner the summary is shown, with one winner, and the indices stay |
| KnockoutPairing.HandleNextRepairs | frontend/src/StudentDashboard/Games/Knockout/PlayGround.tsx:143-151 | otherwise exactly the earlier winners are re-paired (each in one pair or the bye) and become the room's players, a `null` room staying `null`; the eliminated list is cleared, the pair index is 0 and the question index rises |
| GameSocket.NewRoom | backend/sockets/gameSocket.js:12-21 | a new room has no players or questions, every index 0, the given capacity, and is well formed |
| GameSocket.AdmitEffect | backend/sockets/gameSocket.js:41-56 | the room is reported full, and left unchanged, iff its capacity is a number no greater than the player count, so a room with an `undefined` capacity is never full; otherwise the socket is in the room exactly once, the list grows by one iff it was absent, earlier players stay, and the update reports the list |
| GameSocket.AdmitKeepsCapacity | backend/sockets/gameSocket.js:41-50 | with a numeric capacity, a join into a room below capacity never takes it over capacity |
| GameSocket.UncappedRoomGrows | backend/sockets/gameSocket.js:41-50 | a room whose host sent no capacity admits every join, and any number of new sockets all get in, one player each |
| GameSocket.FindById | backend/sockets/gameSocket.js:87 | the index found is the first player with the id, or the length when none has it |
| GameSocket.AwardOnlyThatPlayer | backend/sockets/gameSocket.js:86-91 | a correct answer adds 10 points to the first player with the id and changes no other player or field |
| GameSocket.AwardTotal | backend/sockets/gameSocket.js:86-91 | the total points rise by exactly 10 when some player has the id, and not at all otherwise |
| GameSocket.MaxPoints | backend/sockets/gameSocket.js:103 | the maximum is at least every player's points and is some player's points |
| GameSocket.Keep | backend/sockets/gameSocket.js:104 | the filter keeps exactly the players with the given points |
| GameSocket.SurvivorsAreLeaders | backend/sockets/gameSocket.js:103-104 | survivors are exactly the players with the highest score, in their original order, and there is one whenever there are players |
| GameSocket.SurvivorsKeepRoomOk | backend/sockets/gameSocket.js:103-115 | keeping only the survivors keeps one entry per socket, each keyed by its socket id |
| GameSocket.AnswerPassesTurn | backend/sockets/gameSocket.js:95-100 | when a later player exists the turn passes to them with the round unchanged, and only a correct answer changes points |
| GameSocket.AnswerEndsRound | backend/sockets/gameSocket.js:102-123 | at the last player the game is over iff at most one survivor or no next question; otherwise round and question index rise, the turn restarts and only survivors stay |
| GameSocket.AnswerKeepsRoomOk | backend/sockets/gameSocket.js:81-126 | answering keeps the room well formed |
| GameSocket.FindSocket | backend/sockets/gameSocket.js:134 | the index is the first entry with the socket, and is below the length iff the socket is in the room |
| GameSocket.RemoveSocketShifts | backend/sockets/gameSocket.js:136 | the splice drops the entry at the index and shifts the later ones down by one |
| GameSocket.RemoveSocketExact | backend/sockets/gameSocket.js:134-136 | leaving removes exactly the entry with that socket, keeps the others in order, shrinks the room by one iff it held the socket, and keeps it well formed |
| GameSocket.ScoreAnswer | backend/sockets/gameSocket.js:85-91 | the method's room is the room with `Award` applied iff the answer is correct |
| GameSocket.AnswerRoom | backend/sockets/gameSocket.js:81-126 | the method's event and room are those of `Answer` |
| GameSocket.RoomRegistry.constructor | backend/sockets/gameSocket.js:1 | the registry starts empty and valid |
| GameSocket.RoomRegistry.HostJoinRoom | backend/sockets/gameSocket.js:8-32 | an absent room is created and appended to the order; an existing one only gets the new capacity, which may be `undefined`; the list update is reported; validity is kept |
| GameSocket.RoomRegistry.JoinRoom | backend/sockets/gameSocket.js:34-57 | an unknown room is reported and nothing changes; otherwise the room becomes `Admit`'s (never full when its capacity is `undefined`) and its result is returned; validity is kept |
| GameSocket.RoomRegistry.QuestionsLoaded | backend/sockets/gameSocket.js:59-66 | an existing room stores the questions and makes the first current; the question is reported; nothing else changes |
| GameSocket.RoomRegistry.StartFirstQuestion | backend/sockets/gameSocket.js:68-79 | an existing room makes its first question current and the turn 0, leaving the round index; the question is reported |
| GameSocket.RoomRegistry.PlayerAnswered | backend/sockets/gameSocket.js:81-126 | an unknown room emits nothing; otherwise the event and the room are `Answer`'s; validity is kept |
| GameSocket.RoomRegistry.FindRoomOf | backend/sockets/gameSocket.js:133-135 | returns the first room in insertion order that holds the socket, or none when no room does |
| GameSocket.RoomRegistry.Disconnect | backend/sockets/gameSocket.js:132-145 | the socket leaves the first room in insertion order that holds it, every other room is untouched, and that room's update is reported |
| LessonInterface.MatchAt | frontend/src/GameRoom/Dashboard/HandsOnLearning/LessonInterface.tsx:74-75 | a match at a position is the id after one of the three prefixes there; none means no prefix matches there |
| LessonInterface.SearchFromLeftmost | frontend/src/GameRoom/Dashboard/HandsOnLearning/LessonInterface.tsx:76 | the search returns the match at the first position where one starts; no result means no position matches |
| LessonInterface.ExtractFindsLeftmost | frontend/src/GameRoom/Dashboard/HandsOnLearning/LessonInterface.tsx:73-78 | a returned id is 11 id characters directly after a prefix, at the leftmost matching position |
| LessonInterface.ExtractNoneIff | frontend/src/GameRoom/Dashboard/HandsOnLearning/LessonInterface.tsx:73-78 | `null` is returned exactly when no prefix followed by 11 id characters occurs anywhere |
| LessonInterface.ExtractShortLink | frontend/src/GameRoom/Dashboard/HandsOnLearning/LessonInterface.tsx:73-78 | example: a `youtu.be` short link gives the 11 characters after the prefix |
| LessonInterface.ExtractWatchLink | frontend/src/GameRoom/Dashboard/HandsOnLearning/LessonInterface.tsx:73-78 | example: parameters after the id of a watch link are ignored |
| LessonInterface.ExtractTooShort | frontend/src/GameRoom/Dashboard/HandsOnLearning/LessonInterface.tsx:73-78 | example: fewer than 11 id characters after the prefix give `null` |
| LessonInterface.TrimShape | frontend/src/GameRoom/Dashboard/HandsOnLearning/LessonInterface.tsx:126-128 | a trimmed string neither starts nor ends with whitespace and is the input with only a whitespace prefix and suffix cut off |
| LessonInterface.TrimIdempotent | frontend/src/GameRoom/Dashboard/HandsOnLearning/LessonInterface.tsx:126-128 | trimming twice is trimming once |
| LessonInterface.Split | frontend/src/GameRoom/Dashboard/HandsOnLearning/LessonInterface.tsx:125 | splitting gives at least one piece and no piece holds a newline |
| LessonInterface.SplitJoin | frontend/src/GameRoom/Dashboard/HandsOnLearning/LessonInterface.tsx:125 | joining the pieces with newlines gives the text back, and there is one piece more than newlines |
| LessonInterface.KeepStepsInOrder | frontend/src/GameRoom/Dashboard/HandsOnLearning/LessonInterface.tsx:126-128 | the kept steps are trimmed non-empty lines, a subsequence of the trimmed lines in order |
| LessonInterface.KeepStepsComplete | frontend/src/GameRoom/Dashboard/HandsOnLearning/LessonInterface.tsx:126-128 | every line that is not blank gives a step |
| LessonInterface.KeepStepsCount | frontend/src/GameRoom/Dashboard/HandsOnLearning/LessonInterface.tsx:126-128 | the number of steps is the number of non-blank lines, so repeated lines give repeated steps |
| LessonInterface.StepsWellFormed | frontend/src/GameRoom/Dashboard/HandsOnLearning/LessonInterface.tsx:124-129 | the steps are non-empty, trimmed, in line order, their number is exactly the number of non-blank lines, which is at most the number of lines, and every non-blank line's trimmed text is a step |
| CoordinateCanvas.Without | frontend/src/StudentDashboard/HandsOnLearning/Lessons/CoordinateCanvas.tsx:69-70 | the filtered list holds exactly the other points and never the removed one |
| CoordinateCanvas.WithoutOnce | frontend/src/StudentDashboard/HandsOnLearning/Lessons/CoordinateCanvas.tsx:69-70 | removing a point that occurs once takes exactly one entry away |
| CoordinateCanvas.SelectToggles | frontend/src/StudentDashboard/HandsOnLearning/Lessons/CoordinateCanvas.tsx:69-70 | selecting a selected point deselects it and keeps the other |
| CoordinateCanvas.SelectNew | frontend/src/StudentDashboard/HandsOnLearning/Lessons/CoordinateCanvas.tsx:72-75 | a new point is selected: appended below two, paired with the later point at two |
| CoordinateCanvas.SelectKeepsWindow | frontend/src/StudentDashboard/HandsOnLearning/Lessons/CoordinateCanvas.tsx:67-77 | at most two distinct points are ever selected |
| CoordinateCanvas.AddStartsShape | frontend/src/StudentDashboard/HandsOnLearning/Lessons/CoordinateCanvas.tsx:81-87 | with no shape or a completed last one, a new incomplete one-point shape of the current kind is appended |
| CoordinateCanvas.AddExtendsShape | frontend/src/StudentDashboard/HandsOnLearning/Lessons/CoordinateCanvas.tsx:90-106 | otherwise the point extends the last shape, which keeps its kind and completes iff its count equals what the current kind needs |
| CoordinateCanvas.AddTouchesOnlyLast | frontend/src/StudentDashboard/HandsOnLearning/Lessons/CoordinateCanvas.tsx:79-109 | earlier and completed shapes are never changed and at most one shape is added |
| CoordinateCanvas.AddKeepsShapesOk | frontend/src/StudentDashboard/HandsOnLearning/Lessons/CoordinateCanvas.tsx:79-109 | shapes stay non-empty and a completed shape has 2 to 4 points |
| CoordinateCanvas.OvergrownShapeNeverCompletes | frontend/src/StudentDashboard/HandsOnLearning/Lessons/CoordinateCanvas.tsx:90-101 | an incomplete shape already at the current kind's count only grows and never completes |
| CoordinateCanvas.ClearAll | frontend/src/StudentDashboard/HandsOnLearning/Lessons/CoordinateCanvas.tsx:215-219 | points, selection and shapes are emptied while the display settings and kind stay |
| CoordinateCanvas.ClearAllRestarts | frontend/src/StudentDashboard/HandsOnLearning/Lessons/CoordinateCanvas.tsx:215-219 | after clearing, the next selection is one point and the next shape point starts a fresh shape |
| CoordinateCanvas.LabelRoundTrip | frontend/src/StudentDashboard/HandsOnLearning/Lessons/CoordinateCanvas.tsx:221-225 | an arithmetic check on every point: scaling the label back by the cell size gives the pixel position |
| CoordinateCanvas.LabelOnGrid | frontend/src/StudentDashboard/HandsOnLearning/Lessons/CoordinateCanvas.tsx:221-225 | a grid-snapped point is labelled by its whole cell column and its row above the bottom edge |
| CanvasInterface.TotalBySort | frontend/src/GameRoom/Dashboard/HandsOnLearning/CanvasInterface.tsx:82-87 | the total is the number of single sticks plus ten times the number of bundles |
| CanvasInterface.DropRaisesTotal | frontend/src/GameRoom/Dashboard/HandsOnLearning/CanvasInterface.tsx:77-87 | each drop raises the total by exactly 1 or 10 |
| CanvasInterface.TotalMonotone | frontend/src/GameRoom/Dashboard/HandsOnLearning/CanvasInterface.tsx:82-87 | adding sticks never lowers the total, so a canvas over its target stays over it |
| CanvasInterface.SticksLesson.constructor | frontend/src/GameRoom/Dashboard/HandsOnLearning/CanvasInterface.tsx:69-73 | the lesson starts empty on the first question with fresh ids |
| CanvasInterface.SticksLesson.AddStick | frontend/src/GameRoom/Dashboard/HandsOnLearning/CanvasInterface.tsx:77-80 | the stick is appended with the next id, the id counter moves on, and the total rises by its worth |
| CanvasInterface.SticksLesson.Progress | frontend/src/GameRoom/Dashboard/HandsOnLearning/CanvasInterface.tsx:89-104 | a total off the target changes nothing; on target the lesson moves to the next question with an empty canvas, or shows the summary on the last |
| CanvasInterface.SticksLesson.Drop | frontend/src/GameRoom/Dashboard/HandsOnLearning/CanvasInterface.tsx:89-104 | a drop moves at most one question on and shows the summary only on the last question |
| CombinedOperations.DroppableExactly | frontend/src/StudentDashboard/HandsOnLearning/Lessons/CombinedOperations.tsx:116-131 | a token is a drop slot iff it is empty or one of the six symbols |
| CombinedOperations.LevelsHaveSlots | frontend/src/StudentDashboard/HandsOnLearning/Lessons/CombinedOperations.tsx:10-16 | every level has an empty slot, numbers are fixed, and level 5's printed division sign is itself a slot |
| CombinedOperations.Start | frontend/src/StudentDashboard/HandsOnLearning/Lessons/CombinedOperations.tsx:82-84 | the lesson starts on level 1 with its template |
| CombinedOperations.Drop | frontend/src/StudentDashboard/HandsOnLearning/Lessons/CombinedOperations.tsx:86-91 | exactly the dropped slot gets the symbol, the level stays and the feedback is cleared |
| CombinedOperations.DropKeepsInv | frontend/src/StudentDashboard/HandsOnLearning/Lessons/CombinedOperations.tsx:86-91 | a drop on a slot keeps every fixed token of the template |
| CombinedOperations.CheckAdvances | frontend/src/StudentDashboard/HandsOnLearning/Lessons/CombinedOperations.tsx:96-99 | a correct value below the last level moves to the next level's fresh template |
| CombinedOperations.CheckCompletes | frontend/src/StudentDashboard/HandsOnLearning/Lessons/CombinedOperations.tsx:100-101 | a correct value on the last level only reports completion |
| CombinedOperations.CheckRejects | frontend/src/StudentDashboard/HandsOnLearning/Lessons/CombinedOperations.tsx:103-104 | a wrong value or a failed evaluation only asks to try again |
| CombinedOperations.CheckKeepsInv | frontend/src/StudentDashboard/HandsOnLearning/Lessons/CombinedOperations.tsx:93-106 | checking keeps the invariant and the level never drops or skips |
| CombinedOperations.OperationsLesson.constructor | frontend/src/StudentDashboard/HandsOnLearning/Lessons/CombinedOperations.tsx:82-84 | the component starts in the start board |
| CombinedOperations.OperationsLesson.HandleDrop | frontend/src/StudentDashboard/HandsOnLearning/Lessons/CombinedOperations.tsx:86-91 | the component moves as `Drop` says and keeps the invariant for drops on slots |
| CombinedOperations.OperationsLesson.HandleCheck | frontend/src/StudentDashboard/HandsOnLearning/Lessons/CombinedOperations.tsx:93-106 | the component moves as `Check` says on the evaluator's result and keeps the invariant |
| QuestionsPage.Score | frontend/src/StudentDashboard/Games/Knockout/QuestionsPage.tsx:61-63 | the score never exceeds the number of picks |
| QuestionsPage.TimeoutsScoreNothing | frontend/src/StudentDashboard/Games/Knockout/QuestionsPage.tsx:47-55 | a quiz left to time out scores 0 |
| QuestionsPage.AllCorrectScoresAll | frontend/src/StudentDashboard/Games/Knockout/QuestionsPage.tsx:61-63 | picking every non-empty answer scores every question |
| QuestionsPage.Quiz.constructor | frontend/src/StudentDashboard/Games/Knockout/QuestionsPage.tsx:15-22 | the quiz starts on question 1 with no score, no summary and no selection |
| QuestionsPage.Quiz.HandleNext | frontend/src/StudentDashboard/Games/Knockout/QuestionsPage.tsx:60-70 | the count rises by one iff the non-empty selection is the answer; the last question shows the summary, others move on; the summary's count is the score of the picks |
| QuestionsPage.Quiz.OptionClick | frontend/src/StudentDashboard/Games/Knockout/QuestionsPage.tsx:72-75 | a click counts iff the option is non-empty and equals the answer |
| QuestionsPage.Quiz.TimeOut | frontend/src/StudentDashboard/Games/Knockout/QuestionsPage.tsx:47-55 | a timeout never counts and moves to the next question when there is one |
| TopicsGrid.MatchingTopics | frontend/src/GameRoom/Dashboard/HandsOnLearning/TopicsGrid.tsx:30-32 | there are no more topics than entries |
| TopicsGrid.MatchingTopicsExactly | frontend/src/GameRoom/Dashboard/HandsOnLearning/TopicsGrid.tsx:30-32 | a topic is matched iff some entry of the subject and level has it |
| TopicsGrid.DedupeElements | frontend/src/GameRoom/Dashboard/HandsOnLearning/TopicsGrid.tsx:34 | deduplication keeps exactly the input's elements, each once |
| TopicsGrid.DedupeOrder | frontend/src/GameRoom/Dashboard/HandsOnLearning/TopicsGrid.tsx:34 | the kept elements appear in the order of their first occurrences |
| TopicsGrid.TopicsSound | frontend/src/GameRoom/Dashboard/HandsOnLearning/TopicsGrid.tsx:30-34 | the grid shows each topic of a matching entry exactly once, and nothing else |
| TopicsGrid.TopicsInFirstSeenOrder | frontend/src/GameRoom/Dashboard/HandsOnLearning/TopicsGrid.tsx:30-34 | the topics appear in the order of their first matching entries |
| WaitingRoom.RememberedChoice | frontend/src/StudentDashboard/Games/Knockout/WaitingRoom.tsx:24-30 | the stored value wins, then the navigation state's, then the fallback; storage only gains the state's value |
| WaitingRoom.EveryoneIsHost | frontend/src/StudentDashboard/Games/Knockout/WaitingRoom.tsx:52 | the defaults are never empty, so every waiting room believes it is the host's |
| WaitingRoom.MergeHostEffect | frontend/src/StudentDashboard/Games/Knockout/WaitingRoom.tsx:104-113 | a playing host is always in the merged list, which changes only by prepending a missing host |
| WaitingRoom.MergeHostIdempotent | frontend/src/StudentDashboard/Games/Knockout/WaitingRoom.tsx:77-84 | merging twice is merging once |
| WaitingRoom.Initial | frontend/src/StudentDashboard/Games/Knockout/WaitingRoom.tsx:41-44 | the lobby starts empty, waiting, without the Start button |
| WaitingRoom.PlayerListUpdateStatus | frontend/src/StudentDashboard/Games/Knockout/WaitingRoom.tsx:95-125 | a full room reads "Room full" and shows Start to the host; otherwise the joined count is shown and Start hidden; an `undefined` capacity from the server equals no count, so the status reads "n/undefined" and Start never shows; the list is the merged list |
| WaitingRoom.StartGame | frontend/src/StudentDashboard/Games/Knockout/WaitingRoom.tsx:160-163 | starting hides the Start button and changes nothing else |
| QuestionCard.CanAnswerIff | frontend/src/GameParts/QuestionCard.tsx:37-40 | answering is allowed iff the user is in the pair, has not answered, and a pair member with an id is allowed |
| QuestionCard.RenderRules | frontend/src/GameParts/QuestionCard.tsx:30-82 | no question text shows only the waiting message; options appear iff two named players are ready; they are enabled only when answering is allowed and nothing is selected |
| QuestionCard.Card.constructor | frontend/src/GameParts/QuestionCard.tsx:42 | nothing is selected or forwarded at first |
| QuestionCard.Card.OnAnswerClick | frontend/src/GameParts/QuestionCard.tsx:45-49 | a click is ignored once a non-empty answer is selected; otherwise it is selected and forwarded |
| GameRoom.SafeQuestionDefaults | frontend/src/GameRoom.tsx:84-90 | the normalised question keeps received non-empty text and options and otherwise uses the defaults; the text and options are never empty |
| GameRoom.InPairIff | frontend/src/GameRoom.tsx:100-103 | the user is in the pair iff some member's `_id` or `id` equals the stored id |
| GameRoom.RoomPage.constructor | frontend/src/GameRoom.tsx:43-62 | the page starts without a question or answer, with the stored id as user id when it is non-empty |
| GameRoom.RoomPage.JoinedRoom | frontend/src/GameRoom.tsx:67-72 | the server's id becomes the user id |
| GameRoom.RoomPage.RoundStarted | frontend/src/GameRoom.tsx:83-114 | the pair and normalised question are set, answer state reset, and membership recomputed only when an id was stored at mount |
| GameRoom.RoomPage.HandleAnswer | frontend/src/GameRoom.tsx:130-139 | an answer is sent iff unanswered with a user id and a question, and then marks the round answered |
| GameRoom.RoomPage.AnswerTwice | frontend/src/GameRoom.tsx:130-139 | two answers in a round send at most one message |
| GameRoom.RoomPage.AnswerResult | frontend/src/GameRoom.tsx:116-119 | the result marks the round answered and shows the feedback |

## Left out

- Timers: countdowns, `setTimeout`/`setInterval` delays and their durations are sequential steps. Overlapping timer callbacks (a countdown still firing after the summary, a stale interval) are concurrency and are not modelled, beyond the countdown extra calls counted by `QuestionsPage.Quiz`.
- Randomness: `Math.random` comparators become transposition lists, coin flips a `coin` parameter, the randomly drawn question becomes its correct answer, and `crypto.randomUUID` ids are not modelled.
- DOM and rendering: HTML, styles, messages, button disabling and React rendering order are left out; only the state they show is modelled.
- Floating point: the CoordinateCanvas geometry and canvas drawing, the QuestionsPage percentage, and the two-decimal rounding of the order-of-operations evaluator.
- CombinedOperations evaluator: `eval` is a parameter with no properties assumed.
- The socket transport, room joins and broadcasts: each handler's emitted payload is its result; the constant `playerTurnUpdate` of `startFirstQuestion` (turn 0, round 0) is not returned.
- The `updateLeaderboard` relay (backend/sockets/gameSocket.js:128-130), which only re-broadcasts its input.
- GameSocket points: a missing `points` counts as 0, so `undefined` and `0` are not told apart.
- GameSocket.Admit: the capacity is either a number or `undefined` (`None`, never full). JavaScript coerces other payloads such as `null` or a numeric string before comparing them, and the model does not cover those.
- KnockoutBackup: React batching is modelled as updates applied in order once the handler returns. A handler and the timer callbacks it schedules all read the snapshot of the render that handled the event; this is how the settle callback's `evaluatePair` is modelled (`StaleScoresLeaveItToTheCoin`). Closures kept across several renders (the `renderCountdown` interval, the `setTimeout` that calls `nextPair` after a verdict) are not modelled, and neither is what React does after a call that recurses without end.
- KnockoutEngine.NextPairStep: the recursion of `nextPair` that would never stop is cut off as the outcome `Stuck`; the stack overflow it leads to is not modelled.
- WaitingRoom: `handleGameStart` (navigation and storage once the game starts) and the REST fetch's transport; the unused `country` field of stored players beyond the host match.
- The `handleOptionClick` of Knockout/PlayGround.tsx, which only records the selection and calls `handleNext`.
- QuestionsPage: the second component of the file (lines 137-221), which only renders.
- CombinedOperations symbols: the multiplication and division signs are kept as the two-character sequences the file stores.
- CoordinateCanvas.Without: JavaScript compares points by reference; the model compares them by value.
- CoordinateCanvas.PointLabel: the label's string formatting; only the two numbers it prints are modelled.
- QuestionCard: the `useState` hook is called after an early return, which React does not allow; the model treats the selection as ordinary state (which, as in the source, is never reset between rounds).
- LessonInterface: how the component renders a missing id (`null`).
