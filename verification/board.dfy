/** The board state machine: the two players' square lists, the free list,
    whose turn it is, the winning pattern, the game-over and draw flags, and
    the nine cells it drives. The only transition is `PlayerMove`. */
module Boards {
  import opened Types
  import opened Geometry
  import opened Sorting
  import opened Squares
  import opened WinScan

  /** The nine cells, cell `i` at index `i`. */
  type Cells = s: seq<Square> | |s| == 9 witness InitialSquares()

  function InitialSquares(): (s: seq<Square>)
    ensures |s| == 9
    ensures forall i :: 0 <= i < 9 ==> s[i] == NewSquare(i)
  {
    seq(9, i requires 0 <= i < 9 => NewSquare(i))
  }

  datatype Board = Board(
    xs: seq<SquareId>,        // squares of X, kept ascending by the sort inside FindWins
    os: seq<SquareId>,        // squares of O, likewise ascending
    free: seq<SquareId>,      // unoccupied squares, ascending
    turn: Player,             // who moves next
    winPattern: seq<Line>,    // the winning lines of X, then of O
    gameOver: bool,
    draw: bool,
    squares: Cells)

  /** Errors thrown by the board's move and its guarded setters. */
  datatype BoardError =
    | OccupiedSquare                    // the move is not a free square
    | NotYourTurn                       // the mover is not the current turn
    | NotFinished                       // game over set with no win and a board that is not full
    | NotADraw                          // draw set on a game that is not over or has a win
    | SquareFailure(cause: SquareError) // a cell setter threw

  /** A move either succeeds with the new board, or fails with the error and
      the board as the failure left it. */
  datatype MoveResult = Moved(board: Board) | Failed(error: BoardError, board: Board)

  /** A fresh board: nothing occupied, every square free in ascending order, X to move. */
  function NewBoard(): (b: Board)
    ensures b.xs == [] && b.os == [] && b.free == [0, 1, 2, 3, 4, 5, 6, 7, 8]
    ensures b.turn == PlayerX && b.winPattern == [] && !b.gameOver && !b.draw
    ensures forall i :: 0 <= i < 9 ==> b.squares[i] == NewSquare(i)
  {
    Board([], [], [0, 1, 2, 3, 4, 5, 6, 7, 8], PlayerX, [], false, false, InitialSquares())
  }

  /** The turn number the opponent consults: one more than the moves made. */
  function TurnNumber(b: Board): (n: nat)
    ensures n >= 1
  {
    1 + |b.xs| + |b.os|
  }

  /** The guarded game-over setter: the game can only be declared over with a
      winning pattern or nine occupied squares; clearing always succeeds. */
  function SetGameOver(b: Board, over: bool): (r: Result<Board, BoardError>)
    ensures r.Success? <==> !over || b.winPattern != [] || |b.xs| + |b.os| == 9
    ensures r.Success? ==> r.value == b.(gameOver := over)
    ensures r.Failure? ==> r.error == NotFinished
  {
    if over && b.winPattern == [] && |b.xs| + |b.os| != 9 then Failure(NotFinished)
    else Success(b.(gameOver := over))
  }

  /** The guarded draw setter: a draw needs a finished game without a winning
      pattern; clearing always succeeds. */
  function SetDraw(b: Board, isDraw: bool): (r: Result<Board, BoardError>)
    ensures r.Success? <==> !isDraw || (b.gameOver && b.winPattern == [])
    ensures r.Success? ==> r.value == b.(draw := isDraw)
    ensures r.Failure? ==> r.error == NotADraw
  {
    if !isDraw || (b.gameOver && b.winPattern == []) then Success(b.(draw := isDraw))
    else Failure(NotADraw)
  }

  /** The end-of-game check after a move: a winning pattern ends the game; a
      full board without one ends it as a draw; otherwise nothing changes. */
  function Conclude(b: Board): Result<Board, BoardError> {
    if b.winPattern != [] then SetGameOver(b, true)
    else if b.free == [] then
      var b' :- SetGameOver(b, true);
      SetDraw(b', true)
    else Success(b)
  }

  /** Some line of `pattern` contains `id`. */
  predicate InPattern(id: SquareId, pattern: seq<Line>) {
    exists l :: l in pattern && id in l
  }

  /** The cells after the game-over pass, and the error that stopped it, if any. */
  datatype Marking = Marking(cells: seq<Square>, failure: Option<SquareError>)

  /** The game-over pass over the cells in order: each cell is deactivated,
      then marked winning when its id lies on a line of `pattern`. A failing
      win setter stops the pass, leaving later cells untouched. */
  function MarkSquares(cells: seq<Square>, pattern: seq<Line>): (m: Marking)
    ensures |m.cells| == |cells|
    ensures (forall i :: 0 <= i < |cells| ==> !cells[i].lose) ==> m.failure == None
    ensures m.failure == None ==> forall i :: 0 <= i < |cells| ==>
      m.cells[i] == cells[i].(active := false, win := cells[i].win || InPattern(cells[i].id, pattern))
  {
    if cells == [] then Marking([], None)
    else
      var c := SetActive(cells[0], false);
      var rest := MarkSquares(cells[1..], pattern);
      if InPattern(c.id, pattern) then
        match SetWin(c, true)
        case Failure(e) => Marking([c] + cells[1..], Some(e))
        case Success(c') => Marking([c'] + rest.cells, rest.failure)
      else Marking([c] + rest.cells, rest.failure)
  }

  /** A player's move. The two checks come first and leave the board as it
      was. Then the square is logged in the mover's list, removed from the
      free list, both lists are sorted by the win scan, the winning pattern
      and the end-of-game flags are recomputed, the cell is occupied and
      deactivated, the turn passes, and a finished game runs the game-over
      pass. A failure after the checks leaves the board partly updated. */
  function PlayerMove(b: Board, move: SquareId, player: Player): (r: MoveResult)
    ensures move !in b.free ==> r == Failed(OccupiedSquare, b)
    ensures move in b.free && player != b.turn ==> r == Failed(NotYourTurn, b)
  {
    if move !in b.free then Failed(OccupiedSquare, b)
    else if player != b.turn then Failed(NotYourTurn, b)
    else
      var b1 := LogMove(b, move, player);
      match Conclude(b1)
      case Failure(e) => Failed(e, b1)
      case Success(b2) => Occupy(b2, move, player)
  }

  /** Logs the move in the mover's list, removes it from the free list, and
      recomputes the winning pattern. FindWins sorts the list it is given in
      place, so both lists come out sorted. */
  function LogMove(b: Board, move: SquareId, player: Player): Board {
    var xs := if player == PlayerX then b.xs + [move] else b.xs;
    var os := if player == PlayerO then b.os + [move] else b.os;
    b.(xs := Sort(xs), os := Sort(os), free := Remove(b.free, move),
       winPattern := FindWins(xs) + FindWins(os))
  }

  /** Occupies and deactivates the moved-to cell, passes the turn, and runs the
      game-over pass when the game has ended. */
  function Occupy(b: Board, move: SquareId, player: Player): MoveResult {
    match SetOccupant(b.squares[move], Some(player))
    case Failure(e) => Failed(SquareFailure(e), b)
    case Success(c) =>
      var b' := b.(squares := b.squares[move := SetActive(c, false)], turn := Other(b.turn));
      if b'.gameOver then GameOverPass(b') else Moved(b')
  }

  /** gameOverHandler: deactivates every cell and marks the cells of the winning lines. */
  function GameOverPass(b: Board): MoveResult {
    var m := MarkSquares(b.squares, b.winPattern);
    var b' := b.(squares := m.cells);
    if m.failure.Some? then Failed(SquareFailure(m.failure.value), b') else Moved(b')
  }
}
