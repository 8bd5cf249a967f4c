# Tic-tac-toe core: board state machine and rule-based opponent

This project models the core of a browser tic-tac-toe game in Dafny:

- the board state machine (`Board`): the two players' square lists, the free
  list, the turn, the winning pattern, the game-over and draw flags, the
  win scans, `playerMove` and the game-over pass over the nine cells;
- the nine cells (`Square`): a write-once occupant, an active flag, and
  mutually exclusive win and lose flags;
- the smart opponent (`SmartAIOpponent`): the completing-square search, the
  fork search and the fixed rule chain of `getMove`, which plays in this
  order: win, block, the turn-4 edge rule, own fork, block fork, center,
  opposite corner, corner, first free square;
- the opponent's seat and entry points (`AIOpponent`): which list is its
  own, `placeMove`, and the click handler's guard.

Everything is immutable data and pure functions. A thrown exception becomes
`Result.Failure` (or `MoveResult.Failed`, which keeps the partly updated
board), and `undefined` becomes `Option.None`.

Modules, in dependency order:

- `Types`: square ids, the players, `Option` and `Result`.
- `Geometry`: the eight lines. Also the reference win test `Wins`, which
  reports every line whose three squares all occur in the list, so
  duplicates do not count. Also the center/corner/edge categories.
- `Sorting`: the numeric in-place sort as insertion sort, the filter
  that removes a square, and the general filter.
- `Squares`: one cell and its setters.
- `WinScan`: the board's literal scans, proved equal to `Wins` on lists
  without duplicates.
- `Boards`: the board record, the guarded setters, `PlayerMove` and the
  game-over pass.
- `BoardInvariant`: the board invariant `Valid`, its preservation by every
  accepted move, the behaviour after game over, and whole games from a new
  board.
- `Seats`: the opponent's own list and the other seat's list.
- `SmartAI`: the opponent's searches and `GetMove`, with lemmas that state
  the precedence of the rules.
- `AsWritten`: the searches with the literal scan, and three positions where
  the fork search as written answers differently from the reference.
- `AIMoves`: `placeMove` and the click handler.
- `Scenarios`: the expected values of the repository's opponent tests,
  proved against the model.

Some helpers are called by src/SmartAIOpponent.ts but not defined in src/Board.ts:
`curTurnNumber`, `getFreeSquaresByType`, `getPositionTypeById`, the
`PositionType` enum, `_opponentMoves` and `src/types`. They are modelled
on these stated assumptions:

- The turn number is one more than the number of moves made
  (`Boards.TurnNumber`).
- Square 4 is the center; 0, 2, 6 and 8 are corners; the others are edges
  (`Geometry.TypeOf`).
- The free squares of a category are the free list filtered by that
  category, in order (`Geometry.FreeByType`).
- The opponent's moves are the other seat's list (`Seats.OpponentMoves`).

Notes on what the code does:

- **Lists are sorted, not in move order.** `findHorizontalWins` sorts the
  array it is given in place (src/Board.ts:115). `playerMove` passes it both
  players' lists (src/Board.ts:198), so both lists are ascending after every
  move, not in move order. The edge rule therefore reads the two smallest
  X squares, not X's first two moves.
- **`findWins` does not deduplicate its input.** The reference `Wins` is
  the deduplicated reading. `WinScan.FindWins` is the literal one. They
  agree on lists without duplicates (`WinScan.FindWinsIsReference`).
- **The game-over pass never sets a lose flag.** It only deactivates every
  cell and marks the cells of the winning lines as winning.
- **`playerMove` has no game-over guard.** A move to a free square after
  a win is logged and then fails on the inactive cell
  (`BoardInvariant.MoveAfterGameOver`).

## Model

| member | source | states |
|---|---|---|
| Types.Other | src/Board.ts:211-215 | the turn always passes to the other player |
| Geometry.Wins | src/Board.ts:113-173 | a line is reported exactly when all three of its squares occur in the list, and nothing is reported exactly when no line is covered |
| Geometry.WinsOnlyOnElements | src/Board.ts:113-173 | the reference result depends only on which squares occur, not on their order or on duplicates |
| Geometry.TypeOf | src/SmartAIOpponent.ts:34-36 | 4 is the center; 0, 2, 6 and 8 are corners; 1, 3, 5 and 7 are edges |
| Geometry.FreeByType | src/SmartAIOpponent.ts:54-55 | the free squares of one category are exactly the free squares that have that category, kept in ascending order when the free list is ascending |
| Sorting.Sort | src/Board.ts:115 | the numeric sort keeps the same elements with the same multiplicities, and its result is ascending (strictly so when the input has no duplicates) |
| Sorting.SortOfAscending | src/Board.ts:115 | sorting a list that is already strictly ascending leaves it unchanged |
| Sorting.Remove | src/Board.ts:195 | the filter keeps exactly the squares other than the move, keeps ascending order, removes one entry when the move is present, and changes nothing otherwise |
| Squares.NewSquare | src/Square.ts:8-18 | a new cell keeps its id, has no occupant, and is active, neither winning nor losing |
| Squares.SetOccupant | src/Square.ts:27-35 | assigning an occupant fails exactly on an inactive cell; on an active cell the first assignment sticks and later ones change nothing |
| Squares.SetActive | src/Square.ts:43-51 | the active flag takes the new value and nothing else changes |
| Squares.SetWin | src/Square.ts:59-69 | marking a losing cell as winning fails; every other assignment, including clearing, succeeds and changes only the win flag |
| Squares.SetLose | src/Square.ts:77-86 | marking a winning cell as losing fails; every other assignment, including clearing, succeeds and changes only the lose flag |
| Squares.SettersKeepConsistent | src/Square.ts:59-81 | no setter that succeeds leaves a cell both winning and losing |
| Squares.OccupantWriteOnce | src/Square.ts:27-35 | once a cell has an occupant, no run of further assignments changes it |
| Sorting.Keep | src/Board.ts:136 | the filter keeps exactly the values that pass the test |
| Sorting.KeepCounts | src/Board.ts:136 | the filter keeps every copy of a passing value and no copy of the others, so a list holding a square twice yields a three-element column from two distinct squares |
| Sorting.KeepAscending | src/Board.ts:136 | filtering a sorted list keeps it sorted; with the counts, the result is the sorted list of the passing values with their copies |
| Sorting.KeepStrictlyAscending | src/SmartAIOpponent.ts:117-126 | filtering an ascending list leaves it ascending |
| WinScan.FindWinsIsReference | src/Board.ts:113-173 | on a list without duplicates, the row scan of consecutive sorted triples, the `% 3` column filters and the two diagonal filters together report exactly the covered lines: rows, then columns, then 0-4-8 and 2-4-6 |
| WinScan.ScanFindsCoveredLine | src/Board.ts:167-173 | on a list without duplicates, every covered line is reported |
| Boards.NewBoard | src/Board.ts:13-52 | a new board has no X or O squares, all nine squares free in ascending order, X to move, no pattern, no flags, and nine fresh cells |
| Boards.SetGameOver | src/Board.ts:78-83 | the game can be declared over exactly when there is a winning pattern or all nine squares are occupied; clearing always succeeds |
| Boards.SetDraw | src/Board.ts:92-98 | a draw can be declared exactly when the game is over with an empty pattern; clearing always succeeds |
| Boards.MarkSquares | src/Board.ts:226-242 | the game-over pass deactivates every cell and marks as winning exactly the cells on a winning line; it cannot fail when no cell is losing |
| Boards.PlayerMove | src/Board.ts:180-186 | a move to a square that is not free, or by the player not to move, fails with the board unchanged |
| BoardInvariant.NewBoardValid | src/Board.ts:13-52 | the new board satisfies the invariant: partition of the nine squares, alternating turn, pattern and flags derived from the lists, cells agreeing |
| BoardInvariant.LogMoveLists | src/Board.ts:189-198 | logging a move inserts the square into the mover's sorted list, leaves the other list alone, and removes it from the free list |
| BoardInvariant.LogMovePattern | src/Board.ts:198 | the pattern recomputed by the literal scan is the reference wins of X's list followed by O's |
| BoardInvariant.MovePartitions | src/Board.ts:189-195 | moving a free square into one player's list keeps the three lists a partition of the nine squares, and the mover's list gains exactly that square |
| BoardInvariant.LogMovePartition | src/Board.ts:189-195 | after logging, the three lists still partition the nine squares, and only the moved square changes list |
| BoardInvariant.ConcludeSucceeds | src/Board.ts:199-204 | on a running game the end-of-game check never throws: the game is over on a win or a full board, and a draw on a full board without a win |
| BoardInvariant.MarkFresh | src/Board.ts:226-242 | on cells with no win or lose flag, the pass succeeds, deactivates every cell, marks exactly the pattern's cells, and changes nothing else on the board |
| BoardInvariant.MoveOutcome | src/Board.ts:180-220 | a legal move on a running game succeeds with the board the invariant describes: lists logged, flags derived, cell occupied and deactivated, turn passed, game-over pass run |
| BoardInvariant.AfterLists | src/Board.ts:189-198 | after a move the lists partition the squares, the mover's list grows by one, only the moved square changes list, and the pattern is the reference wins of the new lists |
| BoardInvariant.AfterCells | src/Board.ts:208-242 | every cell rewritten by the move and the game-over pass agrees with the new lists and flags: occupant, active, win, and never lose |
| BoardInvariant.AfterValid | src/Board.ts:189-220 | that board satisfies the invariant; the square moved from the free list to the mover's list only, and the turn passed |
| BoardInvariant.MoveKeepsValid | src/Board.ts:180-220 | every legal move on a valid running game succeeds, keeps the invariant, moves exactly that square from the free list to the mover's list, adds one occupied square and passes the turn |
| BoardInvariant.MoveAfterGameOver | src/Board.ts:180-208 | a move to a free square after a win is logged, leaves the cells untouched, and then fails on the inactive cell; the board keeps the partial update |
| BoardInvariant.PlayKeepsValid | src/Board.ts:180-220 | a run of moves by the player to move either keeps the invariant and logs every move, or stops on an occupied square or an inactive cell; the turn check and the flag setters never fire |
| BoardInvariant.GameFromStart | src/Board.ts:180-220 | after n accepted moves from a new board, the board is valid, n squares are occupied, the turn number is n + 1, and X is to move exactly when n is even |
| Seats.MyMoves | src/AIOpponent.ts:14-18 | the opponent's own list is one of the board's two lists |
| Seats.SeatsSplitTheBoard | src/AIOpponent.ts:14-18 | the opponent reads X's list when it plays X and O's otherwise; the other seat's list is the remaining one |
| SmartAI.CompletingFrom | src/SmartAIOpponent.ts:117-126 | the result holds exactly the free squares that complete a line; it is no longer than the free list and ascending when the free list is |
| SmartAI.FindCompletingPatterns | src/SmartAIOpponent.ts:112-127 | the search fails exactly when the list already wins; otherwise it returns exactly the free squares that complete a line, in free-list order |
| SmartAI.CompletePattern | src/SmartAIOpponent.ts:93-105 | fails exactly when the list already wins; otherwise it returns a free completing square, and the smallest one on an ascending free list, or nothing exactly when no free square completes a line |
| SmartAI.AtLeastTwoIffTwoThreats | src/SmartAIOpponent.ts:144 | on an ascending free list, "at least two completing squares" means exactly "two different free squares each complete a line" |
| SmartAI.FindFork | src/SmartAIOpponent.ts:135-148 | the fork search fails when the list already wins, and any square it returns is free |
| SmartAI.FirstWhereMeaning | src/SmartAIOpponent.ts:141-147 | the first-match loop answers nothing exactly when no candidate passes, and otherwise the earliest candidate that passes |
| SmartAI.FirstForkMeaning | src/SmartAIOpponent.ts:135-148 | the reference fork search answers nothing exactly when no candidate creates two threats, and otherwise the first candidate that does |
| SmartAI.ForkScanSucceeds | src/SmartAIOpponent.ts:141-147 | when no candidate completes a line at once, no trial list wins yet, so the fork loop never throws |
| SmartAI.ForkScanIsFirstFork | src/SmartAIOpponent.ts:141-147 | in that situation the fork loop returns the first candidate that creates two threats |
| SmartAI.FindForkMeaning | src/SmartAIOpponent.ts:135-148 | when the list does not win and no free square completes a line for it, the fork search succeeds with the first free square that creates two threats, or nothing if none does |
| SmartAI.Opposite | src/SmartAIOpponent.ts:59-64 | the opposite of a corner is a corner, and the two lie on one diagonal through the center |
| SmartAI.OppositeFrom | src/SmartAIOpponent.ts:65-72 | the loop returns the corner of the first listed pair from index i on whose corner is free and whose partner the opponent holds (no earlier pair qualifies), or nothing when no such pair remains |
| SmartAI.OppositeCorner | src/SmartAIOpponent.ts:58-72 | the rule returns the smallest free corner whose opposite the opponent holds, and nothing exactly when no free corner has that property |
| SmartAI.Positional | src/SmartAIOpponent.ts:53-79 | the last four rules return a free square exactly when one exists: the center whenever it is free; otherwise a corner whose opposite the opponent holds, the smallest such, when there is one; otherwise the smallest free corner on an ascending free list; and with only edges free, the first free square |
| SmartAI.ForkRules | src/SmartAIOpponent.ts:41-79 | once neither side can complete a line, the fork and positional rules never throw and return a free square exactly when one exists |
| SmartAI.Strategic | src/SmartAIOpponent.ts:29-79 | the same holds from the edge rule on |
| SmartAI.GetMove | src/SmartAIOpponent.ts:16-85 | the choice fails exactly when the opponent's own list already wins, or the other list wins and no square completes the opponent's line; otherwise it returns a free square exactly when one exists |
| SmartAI.TakesWin | src/SmartAIOpponent.ts:17-21 | when some free square wins for the opponent, it plays the smallest such square |
| SmartAI.BlocksWin | src/SmartAIOpponent.ts:23-27 | without a win of its own, it blocks the smallest free square that would win for the other side |
| SmartAI.TakesEdge | src/SmartAIOpponent.ts:29-39 | with nothing to win or block, the edge rule plays the first free edge, ahead of any fork |
| SmartAI.TakesOwnFork | src/SmartAIOpponent.ts:41-45 | with nothing to win or block and no edge rule, it plays its first fork square, which creates two threats |
| SmartAI.BlocksFork | src/SmartAIOpponent.ts:47-51 | without a fork of its own, it plays the other side's first fork square |
| SmartAI.FallsToPositional | src/SmartAIOpponent.ts:16-79 | when nothing is to win or block, the edge rule does not apply and neither side has a fork, the choice is the positional rules' choice |
| SmartAI.TakesOppositeCorner | src/SmartAIOpponent.ts:58-72 | in that situation with the center taken, the opponent plays a free corner whose opposite the other side holds, and no larger one than any such corner |
| SmartAI.TakesCorner | src/SmartAIOpponent.ts:74-77 | with the center taken and no opposite corner to take, it plays the smallest free corner |
| SmartAI.TakesFirstFree | src/SmartAIOpponent.ts:79 | with only edges free, it plays the first free square, which is the smallest |
| SmartAI.TakesCenter | src/SmartAIOpponent.ts:53-56 | with nothing to win, block or fork on either side and no edge rule, it plays a free center |
| AsWritten.CompletingFromAsWritten | src/SmartAIOpponent.ts:117-126 | with the literal scan, the loop keeps exactly the free squares whose trial list the scan reports as winning |
| AsWritten.FindCompletingPatternsAsWritten | src/SmartAIOpponent.ts:112-127 | with the literal scan, the search fails exactly when the scan reports a win for the list |
| AsWritten.FindForkAsWritten | src/SmartAIOpponent.ts:135-148 | with the literal scan, the fork search fails when the list wins, and any square it returns is free |
| AsWritten.CompletingAgrees | src/SmartAIOpponent.ts:117-126 | on a list without duplicates, with free squares outside it, the literal loop equals the reference loop |
| AsWritten.FindCompletingPatternsAgrees | src/SmartAIOpponent.ts:112-127 | on a board's own lists, findCompletingPatterns as written equals the reference search |
| AsWritten.DuplicateFakesColumn | src/Board.ts:133-142 | the column filter counts a repeated square twice: the list 0, 2, 5, 2 is reported as winning with column 2, 2, 5 |
| AsWritten.ForkAsWrittenTakesTwo | src/SmartAIOpponent.ts:141-147 | with X on 0 and 5, the fork search as written answers 2 |
| AsWritten.ForkCorrectedTakesThree | tests/SmartAIOpponent.test.ts:90 | on the same position, the reference fork search answers 3, the value the test expects |
| AsWritten.ForkDiscrepancy | src/SmartAIOpponent.ts:143-144 | on that position, the two fork searches give different answers |
| AsWritten.DuplicateFakesColumnZero | src/Board.ts:133-142 | the column filter counts a repeated square twice: the list 0, 2, 3, 3 is reported as winning with column 0, 3, 3 |
| AsWritten.ForkAsWrittenTakesThree | src/SmartAIOpponent.ts:141-147 | with X on 0 and 2 and the squares 3 to 8 free, the fork search as written answers 3 |
| AsWritten.SecondForkDiscrepancy | tests/SmartAIOpponent.test.ts:92 | on that position the search as written answers 3, while the reference search answers 4, the value the test expects |
| AsWritten.DuplicateFakesDiagonal | src/Board.ts:150-153 | the 0-4-8 diagonal filter counts a repeated square twice: the list 0, 4, 0 is reported as winning with the diagonal 0, 0, 4 |
| AsWritten.ForkAsWrittenTakesZero | src/SmartAIOpponent.ts:141-147 | with X on the center alone, the fork search as written answers 0 |
| AsWritten.ThirdForkDiscrepancy | tests/SmartAIOpponent.test.ts:86 | on that position the search as written answers 0, while the reference search finds no fork, the result the test expects |
| AIMoves.PlayChoice | src/AIOpponent.ts:46-47 | the chosen square is played under the opponent's own seat; a failed choice is reported; an empty choice is rejected by the board as not free |
| AIMoves.PlaceMove | src/AIOpponent.ts:44-49 | placeMove does nothing exactly when it is not the opponent's turn |
| AIMoves.ClickMove | src/AIOpponent.ts:31-37 | the click handler does nothing exactly when the game is over or it is not the opponent's turn |
| AIMoves.ChoiceOnRunningGame | src/SmartAIOpponent.ts:16-85 | on a valid running game the choice never throws and returns a free square |
| AIMoves.PlaceMoveKeepsValid | src/AIOpponent.ts:44-49 | on its turn in a valid running game, the opponent's move is accepted, keeps the invariant, joins the opponent's own list, leaves the free list and passes the turn |
| AIMoves.ClickMoveKeepsValid | src/AIOpponent.ts:31-37 | the click handler does nothing after game over, and otherwise behaves as placeMove |
| AIMoves.PlaceMoveOnFinishedGame | src/AIOpponent.ts:44-49 | on a finished game placeMove never produces an accepted move |
| Scenarios.CompletesTopRow | tests/SmartAIOpponent.test.ts:41 | with X on 0 and 2 and O on 5 (the test plays 0, 5, 2), X completes with 1 |
| Scenarios.CompletesColumnTwo | tests/SmartAIOpponent.test.ts:43 | with X on 0, 5 and 8 and O on 4 and 7 (the test plays 0, 4, 5, 7, 8), X completes with 2 |
| Scenarios.AlreadyWonFails | tests/SmartAIOpponent.test.ts:46-48 | with X on 0, 1 and 2 and O on 5 and 6 (the test plays 0, 5, 2, 6, 1), the search fails because X already wins |
| Scenarios.NoForkOnFullBoard | tests/SmartAIOpponent.test.ts:87 | with X on 0, 2, 3, 4 and 7 and no square free (the test's drawn board), the fork search answers nothing |
| Scenarios.ForkAtZero | tests/SmartAIOpponent.test.ts:91 | with X on 2 and 6 and O on 4 (the test plays 2, 4, 6), the fork search answers 0 |
| Scenarios.ForkAtFour | tests/SmartAIOpponent.test.ts:92 | with X on 0 and 2 and O on 1 (the test plays 0, 1, 2), the fork search answers 4 |
| Scenarios.OppositeCornerAfterFourZero | src/SmartAIOpponent.ts:58-72 | with X on the center and O on 0, the positional rules answer 8, the corner opposite O's, ahead of corner 2 and the first free square 1 |
| Scenarios.ForkAtEight | tests/SmartAIOpponent.test.ts:93 | with X on 1, 2 and 6 and O on 0 and 4 (the test plays 2, 4, 6, 0, 1), the fork search answers 8 |
| Scenarios.NoCompletionForCenter | tests/SmartAIOpponent.test.ts:37 | with X on the center alone (the test plays 4), no free square completes a line for X |
| Scenarios.NoCompletionForZeroFive | tests/SmartAIOpponent.test.ts:38 | with X on 0 and 5 and O on 1 (the test plays 5, 1, 0), no free square completes a line for X |
| Scenarios.CompletesTopRowBesideFive | tests/SmartAIOpponent.test.ts:42 | with X on 0, 2 and 5 and O on 4 and 7 (the test plays 0, 4, 5, 7, 2), X completes with 1 |
| Scenarios.ForkAlreadyWonFails | tests/SmartAIOpponent.test.ts:96-98 | with X on 0, 1 and 2 and O on 5 and 6, the fork search fails because X already wins |
| Scenarios.NoForkForCenter | tests/SmartAIOpponent.test.ts:86 | with X on the center alone, no free square gives X two threats, so the fork search answers nothing |
| Scenarios.ReplayStep | src/Board.ts:180-220 | before move 7 of the replay 0, 1, ..., 8 neither side holds a line, so each move succeeds and reaches the next replayed position |
| Scenarios.ReplayStop | src/Board.ts:189-208 | after move 6 of that replay X holds the diagonal 2-4-6, so the game is over and move 7 fails on its deactivated cell |
| Scenarios.ReplayFrom | src/Board.ts:180-220 | replaying the rest of the moves from any replayed position up to move 7 stops with the inactive-cell failure |
| Scenarios.FullReplayFails | tests/SmartAIOpponent.test.ts:49-51 | filling the board with the moves 0 to 8 from a new board throws at move 7, before any search runs; the same replay is expected to throw at tests/SmartAIOpponent.test.ts:99-101 |

## Left out

- Rendering and the DOM: `Board.render` and `Square.render`, `getClassState`
  and `updateRender`. The class-list and `cloneNode` work in the flag setters
  and the listener wiring in the `AIOpponent` constructor are left out too.
  They are presentation side effects with no state the core reads.
- The `console.log` in `playerMove`, because it is output only.
- `DumbAIOpponent`, because it chooses by `Math.random`.
- `_lastPlayerMove`, because it is written by the click handler and never
  read.
- Commented-out code, and the test helpers that the sources do not define
  (`checkResult`, `AIMove`, the list setters). Only those tests' expected
  values are used.
- The "never loses" property, which the repository only tests by random
  play. Proving it needs an evaluation of the game tree over all
  adversary strategies, more than the verifier can unfold here. The model
  proves the ingredients instead: each rule's precedence, that the choice
  is always a free square, and that the board stays valid.
- SmartAI.GetMove: searches forks with the reference win test (set
  semantics), not the literal scan. This is the corrected behaviour from
  the finding below. The completing-square searches agree with the literal
  scan on the board's own lists (`AsWritten.FindCompletingPatternsAgrees`).
- SmartAI.FindFork: its own contract says only that it fails on a winning
  list and returns a free square. Its full meaning is stated separately by
  `SmartAI.FindForkMeaning`, under that lemma's preconditions.
- Boards.PlayerMove: its own contract covers only the two checks. The
  effects of an accepted move are stated by
  `BoardInvariant.MoveKeepsValid`, for valid boards of a running game.
- Boards.TurnNumber: `curTurnNumber` is assumed to be one more than the
  number of moves made.
- The shared-array aliasing is modelled only by its effect: the opponent
  reads the board's own lists, and those lists are sorted in place.

## Findings

| source | as written | input that shows it | evidently intended | confidence | as-written member | corrected member |
|---|---|---|---|---|---|---|
| src/SmartAIOpponent.ts:141-147 | each trial list `[...occupiedSquares, possibleFork]` goes to findCompletingPatterns, which tries every free square again, including `possibleFork` itself. The resulting duplicate is counted twice by the `% 3` column filter and the diagonal filters of findWins (src/Board.ts:136, 151, 155) | X holds 0 and 5, free squares 2, 3, 4, 6, 7, 8 (the moves 5, 1, 0). The trial list 0, 2, 5 plus 2 passes column 2 as [2, 2, 5], and 8 is a genuine threat, so square 2 is taken as a fork | the first free square that leaves two genuine threats: square 3 (threats at 4 and 6), the value tests/SmartAIOpponent.test.ts:90 expects | not executed | AsWritten.ForkAsWrittenTakesTwo | AsWritten.ForkCorrectedTakesThree |
| src/SmartAIOpponent.ts:141-147 | the same duplicate: the candidate is tried again as a completing square, and the `% 3` column filter of findWins (src/Board.ts:136) counts it twice | X holds 0 and 2, free squares 3, 4, 5, 6, 7, 8 (the moves 0, 1, 2). The trial list 0, 2, 3 plus 3 passes column 0 as [0, 3, 3], and 6 is a genuine threat, so square 3 is taken as a fork | square 4 (threats at 6 and 8), the value tests/SmartAIOpponent.test.ts:92 expects | not executed | AsWritten.ForkAsWrittenTakesThree | Scenarios.ForkAtFour |
| src/SmartAIOpponent.ts:141-147 | the same duplicate, counted twice by the 0-4-8 diagonal filter of findWins (src/Board.ts:151) | X holds 4 alone, every other square free (the move 4). The trial list 0, 4 plus 0 passes the diagonal as [0, 0, 4], and 8 is a genuine threat, so square 0 is taken as a fork | no fork: with the center and one more square X has a single threat, the result tests/SmartAIOpponent.test.ts:86 expects | not executed | AsWritten.ForkAsWrittenTakesZero | Scenarios.NoForkForCenter |

The corrected search is `SmartAI.FindFork`, which the rest of the model
uses. `SmartAI.FindForkMeaning` proves that it returns the first square
creating two distinct threats, and `AsWritten.ForkDiscrepancy` shows that
the two searches disagree on the first position,
`AsWritten.SecondForkDiscrepancy` on the second and
`AsWritten.ThirdForkDiscrepancy` on the third. The test at
tests/SmartAIOpponent.test.ts:93 expects 8 after the moves 2, 4, 6, 0, 1,
and the corrected search gives 8 (`Scenarios.ForkAtEight`). The same
mechanism, a repeated 5 in column 2-5-8, would make the literal search
stop at 5 there; that position is not proved as written.
