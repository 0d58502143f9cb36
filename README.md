# Line tactics on a 4x4 board — a verified model

The game is played on a 4x4 board. Red starts on the top row and blue on the
bottom row. A turn moves one piece one square up, down, left or right onto an
empty square. Moving a piece so that it forms `own, own, enemy` or
`enemy, own, own` on its row or column captures that enemy piece. A row or
column whose four squares are all occupied is immune. A side left with fewer
than two pieces loses.

This project models five parts of the game:

- **Rule engine** (`game_logic.dfy`, `capture_rules.dfy`):
  - the initial board, the moves of one piece and piece counting;
  - the capture scan `processCaptures` as the source writes it, including its per-window loop, the live row and the column snapshot;
  - the capture rule proved about that scan: which pieces fall, at most one per line, immunity of a full line, locality around the moved piece, and that nothing else changes.
- **The bot** (`ai.dfy`, `bot.dfy`):
  - move generation in row-major order;
  - move simulation and the heuristic;
  - the minimax value and the alpha-beta search. With a full window, the search is proved to return the minimax value;
  - the greedy medium tier, both as written and as evidently intended (see Findings);
  - the hard tier's root loop and the `getBotMove` entry point. The entry point keeps the medium tier as written.
- **The game screen's state logic** (`app.dfy`): a `Game` class. Its fields are the React state (board, turn, winner, selection, possible moves, last move, the five newest log entries, mode, difficulty, own colour, online count). Its methods are the click, move, reset, bot-turn and network-message handlers.
- **The lobby's room registry** (`registry.dfy`):
  - the rooms map with the join, leave and heartbeat requests;
  - the sweep of idle rooms;
  - the sorted room listing.
- **The translation function** (`i18n.dfy`): the fallback lookup and the substitution of `{name}` placeholders, one occurrence each, with the `$` replacement patterns of a string replacement.

Shared value types (players, cells, the board, moves, difficulty) are in `types.dfy`.

Where the source works by updating variables in loops, the model is an imperative method. Each such method is proved equal to a specification function, and the properties are proved about that function:

- `createInitialBoard`, `getValidMoves`, `countPieces` and `processCaptures`;
- `getAllValidMoves`, `simulateMove`, `evaluateBoard`, `getMediumMove`, `getBestMove` and `getBotMove`;
- `cleanupRooms`;
- `t`.

The alpha-beta search `minimax` is not proved equal to a function. It is proved fail-soft with respect to the unpruned minimax value `Minimax`: a returned value strictly inside the window (alpha, beta) is exact, one at or below alpha is an upper bound on it, and one at or above beta is a lower bound on it. With the full window (-infinity, +infinity), as `getBestMove` calls it, the result is exactly `Minimax`.

Score values include plus and minus infinity (`Score = NegInf | Fin(int) | PosInf`).

## Model

| member | source | states |
|---|---|---|
| Types.Opponent | utils/gameLogic.ts:84 | the opponent differs from the player; red and blue are each other's opponent |
| GameLogic.CreateInitialBoard | utils/gameLogic.ts:7-21 | the board has row 0 all red, row 3 all blue and rows 1-2 empty |
| GameLogic.InitialCounts | utils/gameLogic.ts:7-21 | the initial board has four pieces of each side |
| GameLogic.GetValidMoves | utils/gameLogic.ts:27-50 | the loop over the four directions returns exactly the specified destination list |
| GameLogic.StepSpec | utils/gameLogic.ts:36-47 | each direction contributes at most one square: the adjacent square in that direction, when it is on the board and empty |
| GameLogic.ValidMovesSpec | utils/gameLogic.ts:27-50 | at most four destinations; a square is listed iff it is orthogonally adjacent and empty; never the piece's own square |
| GameLogic.ValidMovesOrder | utils/gameLogic.ts:29-34 | destinations come in the order up, down, left, right |
| GameLogic.Count | utils/gameLogic.ts:55-63 | a piece count is at most 16 |
| GameLogic.CountPieces | utils/gameLogic.ts:55-63 | the nested loop returns the number of squares holding the player's piece |
| GameLogic.CountIsMultiplicity | utils/gameLogic.ts:55-63 | the count equals the multiplicity of the player's piece among the 16 squares |
| GameLogic.CountAfterSet | utils/gameLogic.ts:59 | writing one square changes a count by exactly what was removed and what was written |
| GameLogic.Read | utils/gameLogic.ts:140-145 | a line read gives the four cells at the line's positions |
| GameLogic.CheckWindow | utils/gameLogic.ts:100-135 | one window step of the loop (both patterns, the involvement test and the re-check of the victim) computes the window function |
| GameLogic.ScanLine | utils/gameLogic.ts:88-137 | `checkLine` (full-line exit, then windows 0 and 1) computes the line function |
| GameLogic.Captures | utils/gameLogic.ts:139-149 | the scan `processCaptures` specifies: the row through the moved square read live, then its column read after the row's captures. It has no contract of its own; its properties are stated by CaptureRules.CapturesRule, CaptureRules.CaptureLocality and CaptureRules.CaptureFrame |
| GameLogic.ProcessCaptures | utils/gameLogic.ts:75-150 | the new board and capture list are the row scan followed by the column scan on a copy of the input |
| CaptureRules.Without | utils/gameLogic.ts:116 | clearing the victims empties exactly the listed squares |
| CaptureRules.LinesAreDistinct | utils/gameLogic.ts:141-146 | the row and column index lists name four distinct squares |
| CaptureRules.OccupiedOfFour | utils/gameLogic.ts:90-91 | a line is full iff none of its four cells is empty |
| CaptureRules.AtMostOneVictim | utils/gameLogic.ts:100-136 | a line yields at most one victim |
| CaptureRules.LineRule | utils/gameLogic.ts:88-137 | for a live row or a column snapshot alike, scanning a line removes exactly its victim (an enemy flanked by two own pieces on one side, in a window holding the moved piece) and appends it to the list |
| CaptureRules.CapturesRule | utils/gameLogic.ts:139-149 | the whole scan is the row victims, then the column victims found on the board after the row captures; a line read as full contributes none |
| CaptureRules.FullLineHasNoVictims | utils/gameLogic.ts:89-91 | a full line has no victims |
| CaptureRules.VictimsOfRow | utils/gameLogic.ts:139-142 | row victims lie in the moved piece's row |
| CaptureRules.VictimsOfColumn | utils/gameLogic.ts:144-147 | column victims lie in the moved piece's column |
| CaptureRules.RowThenColumn | utils/gameLogic.ts:139-149 | a row victim list followed by a column victim list has at most two entries, the row one first |
| CaptureRules.CaptureLocality | utils/gameLogic.ts:139-149 | at most two captures, each in the moved piece's row or column; with two, the row capture is listed first |
| CaptureRules.NoCaptureAroundEmptySquare | utils/gameLogic.ts:106-134 | a scan around an empty square captures nothing and leaves the board as it is |
| CaptureRules.ClearKeepsTrack | utils/gameLogic.ts:115-117 | clearing a square that holds an enemy piece keeps the capture bookkeeping exact |
| CaptureRules.WindowKeepsTrack | utils/gameLogic.ts:100-136 | one window step keeps the capture bookkeeping exact |
| CaptureRules.LineKeepsTrack | utils/gameLogic.ts:88-137 | a line scan keeps the capture bookkeeping exact |
| CaptureRules.CaptureFrame | utils/gameLogic.ts:113-133 | victims are distinct enemy pieces, each cleared; every other square is unchanged; the mover keeps its count and the enemy loses exactly the number captured |
| Ai.Max | utils/ai.ts:155 | the larger of two scores, infinities included |
| Ai.Min | utils/ai.ts:173 | the smaller of two scores, infinities included |
| Ai.MovesFromMembers | utils/ai.ts:39 | the moves pushed for a square are exactly its destinations, each paired with that square |
| Ai.PushMoves | utils/ai.ts:39 | the moves of one square are appended to the list: one move from that square per destination, in destination order |
| Ai.GetAllValidMoves | utils/ai.ts:30-44 | the nested loop returns the specified move list |
| Ai.SquareMovesSpec | utils/ai.ts:37-40 | a square contributes moves only when it holds the player's piece, one per destination |
| Ai.RowMovesSpec | utils/ai.ts:36-41 | one row's moves are those from the player's pieces in its scanned columns |
| Ai.RowsMovesSpec | utils/ai.ts:35-42 | the moves of the scanned rows are those from the player's pieces in them |
| Ai.AllMovesSpec | utils/ai.ts:30-44 | a move is listed iff it starts on the player's piece and goes to an adjacent empty square |
| Ai.AllMovesOrder | utils/ai.ts:35-42 | moves are listed in row-major order of their origin |
| Ai.SimulateMove | utils/ai.ts:111-121 | the method returns the simulated board |
| Ai.SimulateSpec | utils/ai.ts:111-121 | after a legal move the origin is empty, the destination holds the mover, the mover's count is kept, the enemy's drops by the captures, and every other square is unchanged or a cleared enemy |
| Ai.EvaluateBoard | utils/ai.ts:184-200 | the method returns the heuristic: material difference times 20 plus mobility difference |
| Ai.EvaluateAntisymmetric | utils/ai.ts:184-200 | swapping the two sides negates the heuristic |
| Ai.ChildValuesAt | utils/ai.ts:144-154 | each child value is the minimax value of the board after that move, one ply deeper, with the other side to move |
| Ai.ExtremeStep | utils/ai.ts:155 | folding one more child value is `Math.max` (or `Math.min`) with the running value |
| Ai.ExtremePrefix | utils/ai.ts:143-177 | stopping the fold early gives a bound on the full fold |
| Ai.ExtremeIsExtreme | utils/ai.ts:143-177 | the fold is the maximum (minimum) of the child values, is one of them, and is minus (plus) infinity when there are none |
| Ai.FullWindowIsExact | utils/ai.ts:93-101 | a fail-soft result for the window (-infinity, +infinity) is the exact value |
| Ai.MaxNodeStep | utils/ai.ts:155-157 | one iteration of the maximizing loop keeps the fail-soft bounds |
| Ai.MinNodeStep | utils/ai.ts:173-175 | one iteration of the minimizing loop keeps the fail-soft bounds |
| Ai.MaxNodeExit | utils/ai.ts:157-159 | leaving the maximizing loop, by cutoff or exhaustion, yields a fail-soft value |
| Ai.MinNodeExit | utils/ai.ts:175-177 | leaving the minimizing loop, by cutoff or exhaustion, yields a fail-soft value |
| Ai.AlphaBeta | utils/ai.ts:123-179 | the search returns a fail-soft value for the minimax value: exact inside the window, and an upper (lower) bound on a fail low (high) |
| Ai.SearchChild | utils/ai.ts:144-154 | searching one child gives a fail-soft value for that child's minimax value |
| Ai.MaxNode | utils/ai.ts:142-159 | the maximizing loop with cutoff gives a fail-soft value for the maximum of the child values |
| Ai.MinNode | utils/ai.ts:160-178 | the minimizing loop with cutoff gives a fail-soft value for the minimum of the child values |
| Bot.GreedyPick | utils/ai.ts:54-74 | the greedy pick is an index of the move list |
| Bot.GreedyPickIsMax | utils/ai.ts:67-69 | the greedy pick has a maximal score |
| Bot.GreedyPickOnTies | utils/ai.ts:70-72 | with all scores equal, the pick is the first move or a move whose coin came up heads, and no later coin came up heads |
| Bot.GreedyStep | utils/ai.ts:67-72 | one more loop iteration keeps the pick, or takes the new move on a higher score or on a tie with heads |
| Bot.MediumScoresAt | utils/ai.ts:58-63 | each score is ten times the number of pieces captured around that move's destination |
| Bot.MediumScoresAsWrittenAreZero | utils/ai.ts:57-63 | scored on the unmoved board, as written, every legal move scores 0 |
| Bot.MediumAsWrittenIgnoresCaptures | utils/ai.ts:57-74 | as written, the medium pick depends only on the coin flips |
| Bot.CaptureBoardMoves | utils/ai.ts:30-44 | both moves of the counterexample are legal red moves |
| Bot.QuietMoveScoresZero | utils/ai.ts:58-63 | the quiet move captures nothing when played |
| Bot.CaptureMoveScoresTen | utils/ai.ts:58-63 | the capturing move takes one piece when played |
| Bot.MediumAsWrittenMissesCapture | utils/ai.ts:58-62 | as written, the medium tier can choose a move that captures nothing while a capturing move exists |
| Bot.ScoreMove | utils/ai.ts:58-63 | the method computes a move's medium score |
| Bot.GetMediumMove | utils/ai.ts:49-76 | the loop returns the move at the greedy pick of the scores |
| Bot.MediumMoveCapturesMost | utils/ai.ts:57-74 | scoring each move on the board after it, the medium move captures at least as much as any legal move |
| Bot.BestIndex | utils/ai.ts:102-105 | the best index is an index of the score list |
| Bot.BestIndexIsFirstMax | utils/ai.ts:102-105 | the chosen score is maximal, and strictly greater than every earlier score (the first maximum; index 0 when nothing beats minus infinity) |
| Bot.BestStep | utils/ai.ts:102-105 | one more loop iteration takes the new move only on a strictly higher score |
| Bot.RootScores | utils/ai.ts:91-101 | the root has one score per legal move |
| Bot.GetBestMove | utils/ai.ts:81-109 | no move when there are no legal moves; otherwise the move at the first maximum of the root minimax values |
| Bot.LeAntisymmetric | utils/ai.ts:102 | scores are totally ordered |
| Bot.BestMoveAchievesMinimax | utils/ai.ts:91-108 | when neither side has lost, the chosen move's score is the minimax value of the position |
| Bot.BotChoice | utils/ai.ts:7-25 | no move exactly when the move list is empty; otherwise every tier returns one of the bot's legal moves. The medium tier scores on the board before the move, as written |
| Bot.BotChoiceIsLegal | utils/ai.ts:12-24 | the bot moves one of its own pieces one square onto an empty square |
| Bot.MediumChoiceIsCoinsOnly | utils/ai.ts:18-19 | as written, the medium tier plays the last legal move whose coin shows heads, or the first legal move when none does |
| Bot.IntendedMediumChoice | utils/ai.ts:49-76 | the intended medium tier, scoring each move on the board after it: no move exactly when there are no legal moves, otherwise a legal move |
| Bot.MediumChoiceCapturesMost | utils/ai.ts:57-74 | the intended medium tier's move captures at least as much as any other legal move |
| Bot.GetBotMove | utils/ai.ts:7-25 | the method returns the bot's choice, with the medium tier as written |
| App.Newest | App.tsx:52-53 | the new entry first, then the previous entries in order, at most five in all |
| App.WinnerOf | App.tsx:56-70 | blue wins iff red has fewer than two pieces; red wins iff red has at least two and blue fewer than two; otherwise no winner |
| App.Played | App.tsx:280-289 | a move captures at most two pieces, and the moved piece stands on its destination afterwards |
| App.MoverNeverLoses | App.tsx:280-305 | a move keeps the mover's count, lowers the other side's by the captures, and never makes the other side the winner while the mover has two pieces |
| App.MovePiece | App.tsx:280-289 | moving the piece on a copy and resolving captures for its owner gives the specified board and capture list |
| App.Game.constructor | App.tsx:29-45 | the initial screen state: lobby, medium, initial board, red to move, nothing selected, no logs |
| App.Game.PushLog | App.tsx:52-53 | only the logs change, to the newest-first list of at most five |
| App.Game.CheckWinCondition | App.tsx:56-70 | reports a win iff there is a winner, records that winner and logs its entry; otherwise nothing changes |
| App.Game.ResetGame | App.tsx:218-226 | initial board, red to move, no winner, selection, moves, last move or logs |
| App.Game.ExecuteMove | App.tsx:273-311 | the new state is `Moved`: the played board, the destination as last move, no selection or possible moves, the winner recorded, and the turn passed on only when nobody won. The logs gain the capture entry when pieces fell, then the win entry. Mode, difficulty, own colour and online count are kept |
| App.Game.Settle | App.tsx:291-310 | the state update after a move: board, last move, cleared selection, capture and win logs, winner, and the turn flip when nobody won |
| App.Game.HandlePieceClick | App.tsx:239-255 | ignored after a win, out of turn online, or off the mover's pieces; re-clicking the selection clears it; otherwise selects the piece with its valid moves |
| App.Game.HandleMoveClick | App.tsx:257-271 | ignored without a selection, after a win, or out of turn online, and then the whole state is kept; otherwise the selected piece moves to the square, with the full state and logs of `executeMove` |
| App.Game.HandleNetworkMessage | App.tsx:314-337 | a MOVE from another sender is played, with the full state and logs of `executeMove`; one from this player changes nothing. RESET resets the game (no selection, possible moves or last move) and logs the reset; JOIN logs and then resets, leaving empty logs. ONLINE_COUNT sets the count when present |
| App.Game.BotTurn | App.tsx:121-137 | in a bot game with blue to move and no winner, plays the bot's move with the full state of `executeMove` (turn, winner, board, selection) and logs the thinking entry after the move's entries; otherwise the whole state is kept |
| App.Game.StartLocalGame | App.tsx:160-165 | a reset local game (start position, red to move, no winner, selection, possible moves or last move) with no own colour and only the start log |
| App.Game.StartBotGame | App.tsx:167-173 | a reset bot game (start position, red to move, no winner, selection, possible moves or last move) at the chosen level, the player red, with only the start log |
| Registry.JoinRoom | worker/registry.js:76-106 | a full room answers ROOM_FULL and nothing changes; an unknown room is created at `now`; a successful join replaces only that room, by the room found with the assigned seat taken, its creation time kept and its activity time `now` |
| Registry.JoinSwapsTakenColour | worker/registry.js:86-89 | a requested colour whose seat is taken is swapped for the other colour, and the room is then full |
| Registry.JoinWithoutColour | worker/registry.js:86-100 | a request naming no colour, in a room that is not full, is answered with no colour and seats no one |
| Registry.JoinTakesFreeSeat | worker/registry.js:86-100 | a successful join never assigns a taken seat, and the assigned seat is taken afterwards |
| Registry.JoinHonoursFreeColour | worker/registry.js:87-89 | a requested colour that is free is the one assigned |
| Registry.JoinKeepsOthers | worker/registry.js:76-104 | other rooms are untouched, the creation time is kept and taken seats stay taken |
| Registry.Vacated | worker/registry.js:109-110 | exactly the named seat is freed; the other seat and the times are kept |
| Registry.LeaveRoom | worker/registry.js:107-118 | for a known room, the room with the named seat freed is kept, exactly, iff a seat is still taken, and otherwise deleted; an unknown room and other rooms are untouched |
| Registry.JoinThenLeave | worker/registry.js:76-118 | joining a new room and leaving with the same colour restores the registry |
| Registry.HeartbeatRoom | worker/registry.js:119-124 | only the activity time of an existing room changes |
| Registry.HeartbeatKeepsRoom | worker/registry.js:119-124 | a room that has just sent a heartbeat survives a sweep at the same time |
| Registry.Live | worker/registry.js:180-197 | every surviving room was active within the timeout, and no room is added |
| Registry.LiveSpec | worker/registry.js:186-190 | a room survives iff it is not idle for longer than 60000 ms, and it survives unchanged |
| Registry.LiveIdempotentAndMonotone | worker/registry.js:186-190 | a second sweep at the same time removes nothing; a later sweep keeps no room an earlier one dropped |
| Registry.RoomRegistry.constructor | worker/registry.js:72 | an empty registry |
| Registry.RoomRegistry.Join | worker/registry.js:76-106 | the in-place join produces the specified answer and rooms |
| Registry.RoomRegistry.Leave | worker/registry.js:107-118 | the in-place leave produces the specified rooms |
| Registry.RoomRegistry.Heartbeat | worker/registry.js:119-124 | the in-place heartbeat produces the specified rooms |
| Registry.RoomRegistry.CleanupRooms | worker/registry.js:180-197 | the loop deletes exactly the expired rooms and reports whether there was any |
| Registry.Summarize | worker/registry.js:146-152 | an entry carries its room's id, seat flags and creation time; it is full iff both seats are taken, and available iff it is not full |
| Registry.Summaries | worker/registry.js:145-153 | one summary per listed room, in entry order, built from that room's flags |
| Registry.Compare | worker/registry.js:159-163 | negative iff `a` is available and `b` is not, or both agree on availability and `a` is newer; zero iff availability and creation time agree |
| Registry.CompareAntisymmetric | worker/registry.js:158-162 | the comparator is antisymmetric |
| Registry.CompareTransitive | worker/registry.js:158-162 | the comparator's order is transitive |
| Registry.InsertSpec | worker/registry.js:158-162 | inserting into a sorted listing keeps it sorted and adds exactly the entry |
| Registry.SortRoomsSpec | worker/registry.js:158-162 | the sort returns a sorted permutation |
| Registry.InsertClass | worker/registry.js:158-162 | an inserted entry goes ahead of its equals and leaves every other class alone |
| Registry.SortRoomsStable | worker/registry.js:158-162 | the sort is stable: entries the comparator ties keep their order |
| Registry.PrepareRoomData | worker/registry.js:144-166 | one entry per listed room id, and the online count passed through |
| Registry.PrepareRoomDataSpec | worker/registry.js:144-166 | the listing is a permutation of the rooms' summaries with available rooms first and newest first within each group, in a stable order |
| Registry.DistinctOnce | worker/registry.js:144 | a room id listed once by the map's iteration occurs once |
| Registry.DistinctCard | worker/registry.js:144 | an iteration without repetitions has as many ids as entries |
| Registry.SummariesOfListedRooms | worker/registry.js:144-153 | over the map's iteration order, the summaries are pairwise distinct, every room has its summary among them, and each is the summary of the room it names |
| Registry.ListedCount | worker/registry.js:144 | the map's iteration lists as many ids as there are rooms |
| Registry.ListingHasEachRoomOnce | worker/registry.js:144-166 | the listing has one entry per room: each room's summary occurs exactly once, and every entry is the summary of the room it names |
| I18n.Lookup | utils/i18n.tsx:162 | the current language's entry if present and non-empty, else the English entry, else the key; empty only for the empty key |
| I18n.EnglishIgnoresChinese | utils/i18n.tsx:162 | in English the Chinese table is never consulted |
| I18n.Placeholder | utils/i18n.tsx:165 | a placeholder is the name in braces and starts with `{` |
| I18n.FirstIndexFrom | utils/i18n.tsx:165 | the search finds an occurrence and no earlier one, or reports that there is none |
| I18n.Expand | utils/i18n.tsx:165 | a replacement without `$` is inserted as it is |
| I18n.FirstPlaceholder | utils/i18n.tsx:165 | a placeholder is found at the first `{` of the text |
| I18n.FillPlaceholder | utils/i18n.tsx:165 | a placeholder at the first `{`, filled with a value without `$`, becomes exactly the value |
| I18n.ReplaceFirst | utils/i18n.tsx:165 | only the first occurrence is replaced: the text before and after it is kept, a replacement without `$` takes its place as it is, and a text without it is unchanged |
| I18n.NoParams | utils/i18n.tsx:163-168 | without parameters the result is the looked-up text |
| I18n.AbsentParam | utils/i18n.tsx:164-166 | a parameter whose placeholder does not occur leaves the text unchanged |
| I18n.ApplyParamsStep | utils/i18n.tsx:164-166 | applying one more parameter replaces its placeholder in the text the earlier parameters produced |
| I18n.T | utils/i18n.tsx:158-169 | the loop applies the parameters in entry order, each to the text produced by the previous one, starting from the looked-up text |

## Left out

- Randomness is a parameter. The easy tier's `Math.random()` index is an arbitrary `pick`, reduced modulo the number of moves. The medium tier's coin flips are an arbitrary `heads` function of the loop index.
- `getBotMove`'s `default` branch is not modelled: `Difficulty` has only the three tiers.
- `±Infinity` is the `Score` datatype rather than floating point; every score is otherwise an integer.
- Ai.AlphaBeta: requires `alpha < beta`. Every call in the source meets this, because the loops exit as soon as `beta <= alpha`.
- Ai.MaxNode, Ai.MinNode and Ai.SearchChild are the two loops of `minimax` and one recursive call, split out as methods. A `break` is modelled as the loop guard.
- Bot.GetBestMove: requires `depth >= 1`. The only call passes 4; with depth 0 the source would search with depth -1.
- Bot.GetMediumMove: requires a non-empty move list, as at its only call site.
- App.Game.HandleNetworkMessage: requires an applied MOVE to start on an occupied square. The source would otherwise place `null` as a piece.
- App.Game.ExecuteMove: requires an occupied origin. The source casts the origin cell to a player.
- App.Game.Settle and App.MovePiece are `executeMove` split in two: the board update and the state update.
- React's stale closures are not modelled; every handler sees the current state. The network handler's `boardRef` is modelled as the current board.
- React effects, timers, the bot's one-second delay and refs are left out, as are `fetch` calls to the registry, WebSocket sends, storage and `Date.now()`. The clock is a `now` parameter.
- App.Game.BotTurn: logs `logThinking` after the move's own log entries, as the source does.
- `startOnlineGame`, `handleResetRequest` and `unregisterFromRoom` are not modelled; they are network and registry I/O around `resetGame`.
- The log entries carry their translation key and parameters only; rendering them is UI.
- The order of `Object.entries` is a parameter of the room listing. It is required to list every room id once, which is what iterating the map gives; the cleanup sweep's result does not depend on it.
- The registry's websocket sessions, `broadcastUpdate`, the storage writes and the HTTP responses are left out. The online count is a plain parameter of the listing.
- The registry's requested colour is `Option<Player>`; any string other than `red` or `blue` is `None`.
- The registry's header comment speaks of a ten-minute timeout, but the code uses 60000 ms; the model follows the code.
- The translation tables are data. The model takes the Chinese and English tables as parameters.
- Parameter values reach `t` already converted to text (`String(v)`).
- I18n.Expand: models `$$`, `$&`, `` $` `` and `$'`. A `$` followed by anything else stays literal, since a string pattern has no capture groups.

## Findings

| source | as written | input that shows it | evidently intended | confidence | as-written member | corrected member |
|---|---|---|---|---|---|---|
| utils/ai.ts:58-62 | `getMediumMove` scores each move by `processCaptures(board, move.to, player)` on the board before the move. The destination is still empty, so every score is 0 and the pick is decided by coin flips alone | rows `R . B .` / `. R . .` / `. . . .` / `. . . B`, red to move, moves `(0,0)->(1,0)` then `(1,1)->(0,1)`, every coin tails: the quiet move is chosen, though `(1,1)->(0,1)` captures the blue piece at `(0,2)` | score each move on the board after it has been played, so that the tier prefers captures | not executed | Bot.MediumAsWrittenMissesCapture | Bot.MediumChoiceCapturesMost |

The entry point Bot.BotChoice, Bot.GetBotMove and so App.Game.BotTurn keep the medium tier as written (`played` false), as Bot.MediumChoiceIsCoinsOnly states. The corrected tier is Bot.IntendedMediumChoice.
