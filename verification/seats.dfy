/** The seat an AI opponent takes at the board: the player it plays and the
    two square lists it reads. The lists are the board's own, so they always
    reflect the moves made so far. */
module Seats {
  import opened Types
  import opened Boards

  /** The list of the seat's own squares. */
  function MyMoves(b: Board, me: Player): (t: seq<SquareId>)
    ensures t == b.xs || t == b.os
  {
    if me == PlayerX then b.xs else b.os
  }

  /** The list of the other player's squares. */
  function OpponentMoves(b: Board, me: Player): (t: seq<SquareId>)
    ensures t == b.xs || t == b.os
  {
    MyMoves(b, Other(me))
  }

  /** Seen from either seat, the two lists are the board's two lists, one each. */
  lemma SeatsSplitTheBoard(b: Board, me: Player)
    ensures {MyMoves(b, me), OpponentMoves(b, me)} == {b.xs, b.os}
    ensures MyMoves(b, me) == OpponentMoves(b, Other(me))
    ensures me == PlayerX ==> MyMoves(b, me) == b.xs && OpponentMoves(b, me) == b.os
    ensures me == PlayerO ==> MyMoves(b, me) == b.os && OpponentMoves(b, me) == b.xs
  {
  }
}
