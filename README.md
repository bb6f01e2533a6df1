# Tic-Tac-Toe game logic in Dafny

This project models the game logic of a browser Tic-Tac-Toe game (`script.js`).
The board has nine cells, each empty, `X` or `O`. `X` always moves first. There are
eight winning lines, scanned as rows, then columns, then diagonals. A session keeps
four things that the click handler and the buttons update in place: the board, the
player to move, a `running` flag and a score tally `{X, O, D}`. In the
against-the-computer mode the computer plays `O`, at one of three strengths:

- **easy**: a random empty cell;
- **medium**: a rule cascade that it follows on about 60% of turns: win now, block,
  take the centre, take a corner, else move at random;
- **hard**: exhaustive minimax, with scores from `O`'s side. A win for `O` is `+10`,
  a win for `X` is `-10` and a draw is `0`.

Modules, one per file:

- `Rules` (`rules.dfy`) holds the board, the winning lines, the first-complete-line
  scan and the judgement it gives. `checkGame` and `evaluateBoard` both use that scan.
  The file also has the list of empty cells (`avail`) and the marker counts.
- `Search` (`search.dfy`) holds `minimax` as a recursive function. `bestMove` is a
  loop method, proved equal to a function that picks the lowest optimal empty cell.
- `Strategies` (`strategies.dfy`) holds `easyAI` and `mediumAI`. Each `Math.random()`
  draw is passed in as a real number `u` with `0 <= u < 1`. A random position in a
  list of length `n` is `floor(u * n)`.
- `Session` (`session.dfy`) holds the class `Game`. Its fields `board`, `current`,
  `running` and `scores` are the session's variables. Its methods are `makeMove`,
  `checkGame`, the score part of `handleResult`, `newGame`, `resetScores` and the
  click handler. The class invariant `Valid` has two parts:
  - the marker counts always differ by at most one in `X`'s favour;
  - while a game runs, its board is not terminal and `X` is to move exactly when the
    counts are equal.

  Every click preserves this invariant, with the computer's reply taken as an
  immediate part of the click (see "## Left out" for what the 200 ms delay allows).

Facts about the code that the model keeps:

- One last move can complete two lines at once. `Rules.TwoLinesAtOnce` gives such a
  position, reached by X 1, O 4, X 2, O 5, X 3, O 7, X 6, O 8, X 0. `checkGame` reports
  the first of the two lines in scan order.
- `makeMove` writes its cell unconditionally. The check for an occupied cell or a
  finished game is in the click handler.
- Nothing discards a delayed computer reply once a new game has started.

## Model

| member | source | states |
|---|---|---|
| Rules.Other | script.js:113 | the turn switch always hands the move to the other player |
| Rules.Wins | script.js:48-52 | the eight winning lines in scan order: the three rows, the three columns, then the two diagonals |
| Rules.Judge | script.js:146-159 | checkGame's result as a value: its contract is stated by Rules.JudgeSpec |
| Rules.FirstWin | script.js:147-153 | the scan of `wins` from position `k` stops at a complete line, and every line it passed over is incomplete |
| Rules.JudgeSpec | script.js:146-159 | checkGame reports a winner iff some line is complete. The combo is then the first complete line in `wins` order, is one of the eight lines, and its cells hold the winner's marker. It reports a draw iff no line is complete and no cell is empty. It reports "in progress" iff no line is complete and a cell is empty |
| Rules.FirstLineUnique | script.js:147-153 | the first complete line in scan order is unique |
| Rules.Evaluate | script.js:266-275 | evaluateBoard is null exactly when checkGame is, and otherwise lies in {-10, 0, 10} |
| Rules.EvaluateSpec | script.js:266-275 | evaluateBoard is null iff no line is complete and a cell is empty. It is 0 iff there is no line on a full board, 10 iff the first complete line is O's, and -10 iff it is X's |
| Rules.EvaluateAgreesWithJudge | script.js:266-275 | evaluateBoard is non-null exactly when checkGame is. Its 0 matches a draw, and its sign matches the winner checkGame names |
| Rules.EmptyAmong | script.js:232 | the `filter` of a list of cells for emptiness: its contract is stated by Rules.EmptyAmongMembers and Rules.EmptyAmongAscending |
| Rules.Available | script.js:204 | the `avail` list: its contract is stated by Rules.AvailableMembers and Rules.AvailableShape |
| Rules.EmptyAmongMembers | script.js:232 | filtering a list of cells for emptiness keeps exactly its empty cells |
| Rules.EmptyAmongAscending | script.js:232 | the filter keeps the ascending order of the cells it keeps |
| Rules.AvailableMembers | script.js:204 | a cell is in `avail` iff it is empty |
| Rules.AvailableShape | script.js:247 | `avail` holds only empty cells in ascending index order, and is non-empty iff the board is not full |
| Rules.InProgressHasEmpty | script.js:154-158 | a board checkGame reports as in progress is not full |
| Rules.EmptyBoardInPlay | script.js:188-190 | the cleared board is in progress and holds no marker |
| Rules.CountPlace | script.js:141-143 | placing `p` in an empty cell adds one `p`, leaves the other marker's count alone and removes one empty cell |
| Rules.TopRowWin | script.js:147-151 | after X 0, O 4, X 1, O 7, X 2, checkGame names X with the combo [0,1,2] |
| Rules.FullBoardDraw | script.js:154-156 | the reachable full board X,O,X / X,O,O / O,X,X, with five X and four O, is reported as a draw |
| Rules.TwoLinesAtOnce | script.js:147-151 | a reachable board with two complete lines is reported with the earlier one, the top row |
| Search.Minimax | script.js:278-300 | minimax always returns -10, 0 or 10 |
| Search.BestFrom | script.js:282-299 | the max/min fold over the empty cells at or after `i` is a score when one such cell exists, and the starting sentinel otherwise |
| Search.ChildScore | script.js:286-287 | the minimax value of a child position is a score |
| Search.BestFromIsBest | script.js:283-299 | the fold's result is at least as good for the mover as every child it covers, and one of those children attains it |
| Search.MinimaxCharacterised | script.js:278-300 | on a terminal board minimax equals evaluateBoard. Otherwise it is the largest child score when O moves and the smallest when X moves, and some empty cell attains it |
| Search.FirstScoring | script.js:252-262 | the lowest empty cell at or after `i` whose child score is the target, with no empty cell before it scoring the target |
| Search.BestIndex | script.js:241-263 | there is no move iff evaluateBoard is non-null. Otherwise the move is an empty cell whose child score is the minimax value, it is optimal among all empty cells, and every lower empty cell is strictly worse |
| Search.BestMove | script.js:241-263 | the scan with strict `>` (O) or `<` (X) comparisons returns exactly BestIndex |
| Search.ScanFindsBestIndex | script.js:252-262 | when the scan has seen every empty cell, the cell it holds is the lowest one with an optimal score |
| Search.WinNowIsKept | script.js:241-263 | when O can complete a line at once, minimax rates the position 10 and bestMove picks a move that scores 10 |
| Search.XWinNowIsKept | script.js:241-263 | when X can complete a line at once, minimax with X to move rates the position -10 and bestMove for X picks a move that scores -10 |
| Strategies.Pick | script.js:205 | `floor(u * n)` is a valid position in a list of length `n` |
| Strategies.EasyAI | script.js:203-206 | easyAI returns a cell iff the board is not full, and that cell is empty |
| Strategies.EasyAIReachesEveryCell | script.js:203-206 | every empty cell is chosen for some value of the random draw |
| Strategies.Completes | script.js:216-218 | the test-board check: a copy of the board with `p` placed at `i` evaluates to the target (for X and -10 at script.js:223-225) |
| Strategies.FirstCompleting | script.js:215-226 | the lowest empty cell at or after `i` where placing `p` makes evaluateBoard equal the target, with no empty cell before it doing so |
| Strategies.MediumAI | script.js:209-238 | mediumAI returns a cell iff the board is not full, and that cell is empty |
| Strategies.MediumAICascade | script.js:209-238 | in the smart branch: the lowest empty cell that wins for O; else the lowest one that blocks an X win; else the centre if empty; else an empty corner; with no win, no block, the centre and every corner taken, the random pick. When the smart branch is not taken, the random pick too |
| Session.Recorded | script.js:164-175 | recording a finished game adds exactly one to the total: to D for a draw, to the winner's counter otherwise, and no counter decreases |
| Session.AiMove | script.js:122-129 | on a board in play each difficulty's reply is an empty cell |
| Session.Game.constructor | script.js:40-45 | a session starts with an empty board, X to move, play running and a zero tally, and satisfies the invariant |
| Session.Game.MakeMove | script.js:141-143 | cell `i` holds `p` and every other cell is unchanged |
| Session.Game.CheckGame | script.js:146-159 | the loop's result is the judgement of the board, and `running` becomes false exactly when the game has ended |
| Session.Game.HandleResult | script.js:164-175 | the tally becomes the recorded tally for the result |
| Session.Game.NewGame | script.js:188-193 | all nine cells become empty, X is to move, play runs, the tally is kept, and the invariant holds |
| Session.Game.ResetScores | script.js:195-196 | all three counters become zero and the game in progress is untouched |
| Session.Game.Click | script.js:104-138 | A click changes nothing on an occupied cell or after the game has ended. Otherwise the mover's mark is placed. A finishing move stops play and records the result. Otherwise the turn flips, and against the computer O's reply is placed and judged the same way. The invariant is preserved |

## Left out

- Rendering, the status text and the score display: `buildBoard`, `updateUI` and the `textContent` writes in `handleResult` and `resetScores`. These are presentation only.
- The theme toggle, `localStorage` and the button animation. These are browser I/O.
- The event wiring, `init`, `setMode`, `setDifficulty` and the `window.ttt` debug export. The play mode and the difficulty are parameters of `Session.Game.Click` rather than session fields. Because the board is a value, the aliasing of the board array through `window.ttt` is not modelled.
- The 200 ms `setTimeout` before the computer's reply. The model makes the reply an immediate part of the click, so two interleavings of the source are not modelled. First, a reply still pending when a new game starts is placed on the fresh board. Second, during the delay `running` is true and `current` is `O`, so a human click is accepted and places an `O`; the pending reply then places a second `O`, so O moves twice in a row. If that human `O` already ended the game, the reply runs `checkGame` and `handleResult` again and the same result is counted twice in the tally. `Session.Game.Valid`'s alternation of X and O holds in the model only because of the immediate reply.
- The distribution of `Math.random()`. Each draw is a parameter in `[0, 1)`; uniformity and the 60/40 split are not stated.
- The `±Infinity` starting values of the minimax and bestMove accumulators are the sentinels `-11` and `11`. Both lie outside the score range, so every real score replaces them as the source's infinities would.
- On a full board easyAI's `avail[...]` is `undefined`. It is modelled as `None`; no caller reaches that case on a board in play.
- The claim that the hard opponent never loses against any play by X. This needs the whole game tree enumerated. The local maximum/minimum characterisation in `Search.MinimaxCharacterised` and `Search.BestIndex` stands in for it.
- Strategies.MediumAICascade: for the corner rule it states only that an empty corner is picked, not which one. The choice `corners[floor(u * |corners|)]` is pinned down by `Strategies.MediumAI` itself.
- `evaluateBoard` repeats the line scan of `checkGame`. The model defines that scan once (`Rules.FirstWin`) and both operations use it.
