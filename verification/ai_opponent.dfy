/** The opponent's two entry points: `placeMove`, which moves when it is the
    opponent's turn, and the click handler, which does the same after a
    human move provided the game is still running. Both play the square the
    smart opponent chooses, under the opponent's own seat. */
module AIMoves {
  import opened Types
  import opened Geometry
  import opened Sorting
  import opened Squares
  import opened Boards
  import opened BoardInvariant
  import opened Seats
  import opened SmartAI

  /** What an attempt to move produced: nothing (not the opponent's turn, or
      the click came after the game ended), the choice failing, or the board
      move and its outcome. */
  datatype PlaceOutcome =
    | Waiting
    | ChoiceFailed(error: AIError)
    | Played(result: MoveResult)

  /** Plays the chosen square for `me`. An empty choice (a full board) reaches
      the board as a square that is not free, which the board rejects. */
  function PlayChoice(b: Board, me: Player): (r: PlaceOutcome)
    ensures r != Waiting
    ensures GetMove(b, me).Failure? <==> r.ChoiceFailed?
    ensures GetMove(b, me) == Success(None) ==> r == Played(Failed(OccupiedSquare, b))
    ensures GetMove(b, me).Success? && GetMove(b, me).value.Some? ==>
      r == Played(PlayerMove(b, GetMove(b, me).value.value, me))
  {
    match GetMove(b, me)
    case Failure(e) => ChoiceFailed(e)
    case Success(None) => Played(Failed(OccupiedSquare, b))
    case Success(Some(m)) => Played(PlayerMove(b, m, me))
  }

  /** placeMove: moves only on the opponent's turn. */
  function PlaceMove(b: Board, me: Player): (r: PlaceOutcome)
    ensures r == Waiting <==> b.turn != me
    ensures b.turn == me ==> r == PlayChoice(b, me)
  {
    if b.turn == me then PlayChoice(b, me) else Waiting
  }

  /** The click handler: moves only while the game runs and on the opponent's turn. */
  function ClickMove(b: Board, me: Player): (r: PlaceOutcome)
    ensures r == Waiting <==> b.gameOver || b.turn != me
    ensures !b.gameOver && b.turn == me ==> r == PlayChoice(b, me)
  {
    if !b.gameOver && b.turn == me then PlayChoice(b, me) else Waiting
  }

  /** On a running game neither list wins and some square is free. */
  lemma RunningGameFacts(b: Board)
    requires Valid(b) && !b.gameOver
    ensures Wins(b.xs) == [] && Wins(b.os) == [] && b.free != []
  {
  }

  /** On a valid running game the choice succeeds with a free square. */
  lemma ChoiceOnRunningGame(b: Board, me: Player)
    requires Valid(b) && !b.gameOver
    ensures GetMove(b, me).Success? && GetMove(b, me).value.Some?
    ensures GetMove(b, me).value.value in b.free
  {
    RunningGameFacts(b);
    SeatsSplitTheBoard(b, me);
  }

  /** On its turn in a valid running game the opponent's move is accepted,
      keeps the invariant, adds the chosen square to the opponent's own list
      and passes the turn. */
  lemma PlaceMoveKeepsValid(b: Board, me: Player)
    requires Valid(b) && !b.gameOver && b.turn == me
    ensures PlaceMove(b, me).Played? && PlaceMove(b, me).result.Moved?
    ensures var b' := PlaceMove(b, me).result.board;
      && Valid(b')
      && b'.turn == Other(me)
      && GetMove(b, me).value.value in MyMoves(b', me)
      && GetMove(b, me).value.value !in b'.free
  {
    ChoiceOnRunningGame(b, me);
    var m := GetMove(b, me).value.value;
    MoveKeepsValid(b, m, me);
  }

  /** The click handler does the same, and nothing once the game is over. */
  lemma ClickMoveKeepsValid(b: Board, me: Player)
    requires Valid(b) && b.turn == me
    ensures b.gameOver ==> ClickMove(b, me) == Waiting
    ensures !b.gameOver ==> ClickMove(b, me) == PlaceMove(b, me)
    ensures !b.gameOver ==>
      ClickMove(b, me).Played? && ClickMove(b, me).result.Moved? && Valid(ClickMove(b, me).result.board)
  {
    if !b.gameOver {
      PlaceMoveKeepsValid(b, me);
    }
  }

  /** On a finished game placeMove never produces an accepted move: the choice
      fails when some list already wins and the opponent cannot complete a
      line, the board rejects the move on a full board, and otherwise the move
      fails on the inactive cell. */
  lemma PlaceMoveOnFinishedGame(b: Board, me: Player)
    requires Valid(b) && b.gameOver
    ensures !(PlaceMove(b, me).Played? && PlaceMove(b, me).result.Moved?)
  {
    if b.turn == me {
      SeatsSplitTheBoard(b, me);
      var g := GetMove(b, me);
      if g.Success? && g.value.Some? {
        MoveAfterGameOver(b, g.value.value, me);
      }
    }
  }
}
