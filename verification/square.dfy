/** One of the nine cells of the board and its flag setters. The source keeps
    these flags for the presentation layer; the board drives them when a
    square is occupied and when the game ends. Rendering is not modelled. */
module Squares {
  import opened Types

  /** Errors thrown by the cell's setters. */
  datatype SquareError = InactiveSquare | WinAndLose

  /** `occupant` is the source's `state` (`None` for `undefined`). */
  datatype Square = Square(id: SquareId, occupant: Option<Player>, active: bool, win: bool, lose: bool)

  /** A fresh cell: active, neither win nor lose, unoccupied, keeping its id. */
  function NewSquare(id: SquareId): (c: Square)
    ensures c.id == id && c.occupant == None
    ensures c.active && !c.win && !c.lose
  {
    Square(id, None, true, false, false)
  }

  /** The occupant setter: fails on an inactive cell; on an active cell the
      first assignment sticks and later ones are silently ignored. */
  function SetOccupant(c: Square, p: Option<Player>): (r: Result<Square, SquareError>)
    ensures r.Failure? <==> !c.active
    ensures r.Failure? ==> r.error == InactiveSquare
    ensures r.Success? ==> r.value.id == c.id && r.value.active == c.active
    ensures r.Success? ==> r.value.win == c.win && r.value.lose == c.lose
    ensures r.Success? && c.occupant.Some? ==> r.value.occupant == c.occupant
    ensures r.Success? && c.occupant.None? ==> r.value.occupant == p
  {
    if !c.active then Failure(InactiveSquare)
    else if c.occupant == None then Success(c.(occupant := p))
    else Success(c)
  }

  /** The active setter never fails and touches nothing else. */
  function SetActive(c: Square, a: bool): (r: Square)
    ensures r.active == a
    ensures r.id == c.id && r.occupant == c.occupant && r.win == c.win && r.lose == c.lose
  {
    c.(active := a)
  }

  /** The win setter: marking a losing cell as winning fails; clearing always succeeds. */
  function SetWin(c: Square, w: bool): (r: Result<Square, SquareError>)
    ensures r.Failure? <==> w && c.lose
    ensures r.Failure? ==> r.error == WinAndLose
    ensures r.Success? ==> r.value == c.(win := w)
  {
    if w && c.lose then Failure(WinAndLose) else Success(c.(win := w))
  }

  /** The lose setter: marking a winning cell as losing fails; clearing always succeeds. */
  function SetLose(c: Square, l: bool): (r: Result<Square, SquareError>)
    ensures r.Failure? <==> l && c.win
    ensures r.Failure? ==> r.error == WinAndLose
    ensures r.Success? ==> r.value == c.(lose := l)
  {
    if l && c.win then Failure(WinAndLose) else Success(c.(lose := l))
  }

  /** The cell never wins and loses at once. */
  predicate Consistent(c: Square) {
    !(c.win && c.lose)
  }

  /** Every setter that succeeds keeps win and lose mutually exclusive. */
  lemma SettersKeepConsistent(c: Square, p: Option<Player>, a: bool, w: bool, l: bool)
    requires Consistent(c)
    ensures Consistent(NewSquare(c.id))
    ensures SetOccupant(c, p).Success? ==> Consistent(SetOccupant(c, p).value)
    ensures Consistent(SetActive(c, a))
    ensures SetWin(c, w).Success? ==> Consistent(SetWin(c, w).value)
    ensures SetLose(c, l).Success? ==> Consistent(SetLose(c, l).value)
  {
  }

  /** The occupant is write-once: once set, no sequence of occupant writes changes it. */
  lemma {:induction false} OccupantWriteOnce(c: Square, writes: seq<Option<Player>>)
    requires c.occupant.Some?
    ensures ApplyOccupants(c, writes).Success? ==> ApplyOccupants(c, writes).value.occupant == c.occupant
    ensures c.active ==> ApplyOccupants(c, writes) == Success(c)
  {
    if writes != [] {
      OccupantWriteOnce(c, writes[1..]);
    }
  }

  /** Assigns the occupants in `writes` one after another, stopping at the first failure. */
  function ApplyOccupants(c: Square, writes: seq<Option<Player>>): Result<Square, SquareError>
    decreases writes
  {
    if writes == [] then Success(c)
    else
      var c' :- SetOccupant(c, writes[0]);
      ApplyOccupants(c', writes[1..])
  }
}
