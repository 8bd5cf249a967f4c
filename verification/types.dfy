/** Shared vocabulary of the tic-tac-toe core: square identifiers, the two
    seats, and the failure-carrying wrappers used for the source's exceptions
    and `undefined` returns. */
module Types {

  /** A square identifier: index 0..8 of the flat 3x3 grid, row = id / 3, column = id % 3. */
  type SquareId = x: int | 0 <= x < 9

  /** The two seats. X always moves first. */
  datatype Player = PlayerX | PlayerO

  /** The seat that moves after `p`. */
  function Other(p: Player): (q: Player)
    ensures q != p
  {
    if p == PlayerX then PlayerO else PlayerX
  }

  /** A value or nothing; `None` stands for the source's `undefined`. */
  datatype Option<T> = None | Some(value: T)

  /** A value or the error a source method would have thrown. */
  datatype Result<T, E> = Success(value: T) | Failure(error: E) {

    predicate IsFailure() {
      Failure?
    }

    function PropagateFailure<U>(): Result<U, E>
      requires Failure?
    {
      Failure(error)
    }

    function Extract(): T
      requires Success?
    {
      value
    }
  }
}
