/** The board's invariant — the three lists partition the nine squares, the
    turn alternates, the pattern and flags are derived from the lists, and
    the cells agree with all of it — and the proof that every accepted move
    on a running game keeps it. */
module BoardInvariant {
  import opened Types
  import opened Geometry
  import opened Sorting
  import opened Squares
  import opened WinScan
  import opened Boards

  /** X's squares, O's squares and the free squares partition 0..8, each list ascending. */
  predicate Partition(b: Board) {
    Partitions(b.xs, b.os, b.free)
  }

  predicate Partitions(xs: seq<SquareId>, os: seq<SquareId>, free: seq<SquareId>) {
    && StrictlyAscending(xs) && StrictlyAscending(os) && StrictlyAscending(free)
    && (forall s: SquareId :: s in xs || s in os || s in free)
    && (forall s :: s in xs ==> s !in os && s !in free)
    && (forall s :: s in os ==> s !in free)
    && |xs| + |os| + |free| == 9
  }

  /** Who occupies square `i`, as the lists say. */
  function Owner(b: Board, i: SquareId): Option<Player> {
    if i in b.xs then Some(PlayerX) else if i in b.os then Some(PlayerO) else None
  }

  /** Cell `i` as the lists and flags say it must be. */
  predicate CellAgrees(b: Board, i: SquareId) {
    var c := b.squares[i];
    && c.id == i
    && !c.lose
    && c.occupant == Owner(b, i)
    && c.active == (i in b.free && !b.gameOver)
    && c.win == (b.gameOver && InPattern(i, b.winPattern))
  }

  predicate Valid(b: Board) {
    && Partition(b)
    && (if b.turn == PlayerX then |b.xs| == |b.os| else |b.xs| == |b.os| + 1)
    && b.winPattern == Wins(b.xs) + Wins(b.os)
    && b.gameOver == (b.winPattern != [] || b.free == [])
    && b.draw == (b.free == [] && b.winPattern == [])
    && (forall i: SquareId :: CellAgrees(b, i))
  }

  lemma NewBoardValid()
    ensures Valid(NewBoard())
  {
    var b := NewBoard();
    EverySquareFree(b.free);
    WinsOfEmpty();
    assert Partition(b);
    forall i: SquareId ensures CellAgrees(b, i) {
      assert b.squares[i] == NewSquare(i);
    }
  }

  /** The initial free list holds every square, in ascending order. */
  lemma EverySquareFree(free: seq<SquareId>)
    requires free == [0, 1, 2, 3, 4, 5, 6, 7, 8]
    ensures StrictlyAscending(free)
    ensures forall s: SquareId :: s in free
  {
    forall s: SquareId ensures s in free {
      assert free[s] == s;
    }
  }

  /** The lists after an accepted move: the mover's list gains the square in
      ascending position, the other list is unchanged, the free list loses it. */
  lemma LogMoveLists(b: Board, move: SquareId, player: Player)
    requires Partition(b) && move in b.free
    ensures LogMove(b, move, player).xs == (if player == PlayerX then Insert(b.xs, move) else b.xs)
    ensures LogMove(b, move, player).os == (if player == PlayerO then Insert(b.os, move) else b.os)
    ensures LogMove(b, move, player).free == Remove(b.free, move)
  {
    SortOfAscending(b.xs);
    SortOfAscending(b.os);
    SortAppend(b.xs, move);
    SortAppend(b.os, move);
  }

  /** The winning pattern after an accepted move is the reference wins of the two new lists. */
  lemma LogMovePattern(b: Board, move: SquareId, player: Player)
    requires Partition(b) && move in b.free
    ensures var b1 := LogMove(b, move, player); b1.winPattern == Wins(b1.xs) + Wins(b1.os)
  {
    LogMoveLists(b, move, player);
    if player == PlayerX {
      MoverWins(b.xs, move);
      StayerWins(b.os);
    } else {
      MoverWins(b.os, move);
      StayerWins(b.xs);
    }
  }

  /** The scan of the mover's unsorted list finds the reference wins of its sorted form. */
  lemma MoverWins(t: seq<SquareId>, move: SquareId)
    requires StrictlyAscending(t) && move !in t
    ensures FindWins(t + [move]) == Wins(Insert(t, move))
  {
    AscendingNoDuplicates(t);
    AppendNoDuplicates(t, move);
    FindWinsIsReference(t + [move]);
    InsertMembers(t, move);
    WinsOnlyOnElements(t + [move], Insert(t, move));
  }

  /** The scan of the other player's list finds its reference wins. */
  lemma StayerWins(t: seq<SquareId>)
    requires StrictlyAscending(t)
    ensures FindWins(t) == Wins(t)
  {
    AscendingNoDuplicates(t);
    FindWinsIsReference(t);
  }

  /** An accepted move keeps the partition. */
  lemma LogMovePartition(b: Board, move: SquareId, player: Player)
    requires Partition(b) && move in b.free
    ensures Partition(LogMove(b, move, player))
    ensures forall s :: s in LogMove(b, move, player).xs <==> s in b.xs || (player == PlayerX && s == move)
    ensures forall s :: s in LogMove(b, move, player).os <==> s in b.os || (player == PlayerO && s == move)
    ensures forall s :: s in LogMove(b, move, player).free <==> s in b.free && s != move
  {
    LogMoveLists(b, move, player);
    if player == PlayerX {
      MovePartitions(b.xs, b.os, b.free, move);
    } else {
      MovePartitions(b.os, b.xs, b.free, move);
    }
  }

  /** Moving a free square into the mover's list keeps the three lists a
      partition; the lists change only by that square. The partition is
      symmetric in the two players' lists, so `mine` may be either. */
  lemma MovePartitions(mine: seq<SquareId>, theirs: seq<SquareId>, free: seq<SquareId>, move: SquareId)
    requires Partitions(mine, theirs, free) || Partitions(theirs, mine, free)
    requires move in free
    ensures Partitions(Insert(mine, move), theirs, Remove(free, move))
    ensures Partitions(theirs, Insert(mine, move), Remove(free, move))
    ensures forall s :: s in Insert(mine, move) <==> s in mine || s == move
  {
    InsertMembers(mine, move);
    InsertStrictlyAscending(mine, move);
  }

  /** On a running game the end-of-game check succeeds and sets the flags
      from the lists: over on a win or a full board, a draw on a full board without a win. */
  lemma ConcludeSucceeds(b: Board)
    requires Partition(b) && !b.gameOver && !b.draw
    ensures Conclude(b).Success?
    ensures Conclude(b).value == b.(gameOver := b.winPattern != [] || b.free == [],
                                    draw := b.free == [] && b.winPattern == [])
  {
  }

  /** The first game-over pass over cells none of which is a losing cell
      deactivates every cell and marks exactly the cells on the pattern. */
  lemma MarkFresh(b: Board)
    requires forall i: SquareId :: !b.squares[i].lose && !b.squares[i].win && b.squares[i].id == i
    ensures GameOverPass(b).Moved?
    ensures forall i: SquareId ::
      GameOverPass(b).board.squares[i] == b.squares[i].(active := false, win := InPattern(i, b.winPattern))
    ensures GameOverPass(b).board == b.(squares := GameOverPass(b).board.squares)
  {
    var m := MarkSquares(b.squares, b.winPattern);
    assert forall i :: 0 <= i < 9 ==> !b.squares[i].lose;
  }

  /** Cell `i` after an accepted move on a running game, described from the
      old cell: the moved-to cell is occupied and deactivated, and when the move
      ends the game every cell is deactivated and the cells on the pattern win. */
  function CellAfter(c: Square, i: SquareId, move: SquareId, player: Player, over: bool, pattern: seq<Line>): Square {
    var c1 := if i == move then c.(occupant := Some(player), active := false) else c;
    if over then c1.(active := false, win := InPattern(i, pattern)) else c1
  }

  /** The board after an accepted move on a running game, described directly. */
  function After(b: Board, move: SquareId, player: Player): Board {
    var b1 := LogMove(b, move, player);
    var over := b1.winPattern != [] || b1.free == [];
    b1.(gameOver := over, draw := b1.free == [] && b1.winPattern == [], turn := Other(b.turn),
        squares := CellsAfter(b.squares, move, player, over, b1.winPattern))
  }

  function CellsAfter(cells: Cells, move: SquareId, player: Player, over: bool, pattern: seq<Line>): (r: Cells)
    ensures forall i: SquareId :: r[i] == CellAfter(cells[i], i, move, player, over, pattern)
  {
    seq(9, i requires 0 <= i < 9 => CellAfter(cells[i], i, move, player, over, pattern))
  }

  /** A move by the player to move, to a free square of a running game, succeeds with `After`. */
  lemma MoveOutcome(b: Board, move: SquareId, player: Player)
    requires Valid(b) && !b.gameOver && move in b.free && player == b.turn
    ensures PlayerMove(b, move, player) == Moved(After(b, move, player))
  {
    var b1 := LogMove(b, move, player);
    LogMovePartition(b, move, player);
    ConcludeSucceeds(b1);
    var b2 := Conclude(b1).value;
    assert PlayerMove(b, move, player) == Occupy(b2, move, player);
    assert CellAgrees(b, move);
    forall i: SquareId ensures !b2.squares[i].lose && !b2.squares[i].win && b2.squares[i].id == i {
      assert CellAgrees(b, i);
    }
    OccupyFresh(b2, move, player);
  }

  /** Occupying an active, empty cell on a board none of whose cells wins or
      loses yields the cells `CellsAfter` describes, with the turn passed. */
  lemma OccupyFresh(b: Board, move: SquareId, player: Player)
    requires b.squares[move].active && b.squares[move].occupant == None
    requires forall i: SquareId :: !b.squares[i].lose && !b.squares[i].win && b.squares[i].id == i
    ensures Occupy(b, move, player) ==
      Moved(b.(turn := Other(b.turn), squares := CellsAfter(b.squares, move, player, b.gameOver, b.winPattern)))
  {
    var c := SetOccupant(b.squares[move], Some(player)).value;
    var b3 := b.(squares := b.squares[move := SetActive(c, false)], turn := Other(b.turn));
    var want := CellsAfter(b.squares, move, player, b.gameOver, b.winPattern);
    forall i: SquareId ensures !b3.squares[i].lose && !b3.squares[i].win && b3.squares[i].id == i {
    }
    if b3.gameOver {
      MarkFresh(b3);
      assert GameOverPass(b3).board.squares == want;
    } else {
      assert b3.squares == want;
    }
  }

  /** The board `After` describes satisfies the invariant, with the square moved
      from the free list to the mover's list and the turn passed. */
  lemma AfterValid(b: Board, move: SquareId, player: Player)
    requires Valid(b) && !b.gameOver && move in b.free && player == b.turn
    ensures var b' := After(b, move, player);
      && Valid(b')
      && b'.turn == Other(b.turn)
      && (forall s :: s in b'.xs <==> s in b.xs || (player == PlayerX && s == move))
      && (forall s :: s in b'.os <==> s in b.os || (player == PlayerO && s == move))
      && (forall s :: s in b'.free <==> s in b.free && s != move)
  {
    AfterLists(b, move, player);
    assert Owner(b, move) == None;
    AfterCells(b, After(b, move, player), move, player);
  }

  /** After an accepted move the lists still partition the squares, differ
      from the old lists only by the move, and the pattern is their reference wins. */
  lemma AfterLists(b: Board, move: SquareId, player: Player)
    requires Partition(b) && move in b.free
    ensures var b' := After(b, move, player);
      && Partition(b')
      && |b'.xs| == |b.xs| + (if player == PlayerX then 1 else 0)
      && |b'.os| == |b.os| + (if player == PlayerO then 1 else 0)
      && b'.winPattern == Wins(b'.xs) + Wins(b'.os)
      && (forall s :: s in b'.xs <==> s in b.xs || (player == PlayerX && s == move))
      && (forall s :: s in b'.os <==> s in b.os || (player == PlayerO && s == move))
      && (forall s :: s in b'.free <==> s in b.free && s != move)
  {
    LogMovePartition(b, move, player);
    LogMovePattern(b, move, player);
  }

  /** Every cell rewritten by `CellAfter` agrees with a board whose lists
      differ from the old board's only by the move. */
  lemma AfterCells(b: Board, b': Board, move: SquareId, player: Player)
    requires forall i: SquareId :: CellAgrees(b, i)
    requires !b.gameOver && move in b.free && Owner(b, move) == None
    requires forall s :: s in b'.xs <==> s in b.xs || (player == PlayerX && s == move)
    requires forall s :: s in b'.os <==> s in b.os || (player == PlayerO && s == move)
    requires forall s :: s in b'.free <==> s in b.free && s != move
    requires forall i: SquareId :: b'.squares[i] == CellAfter(b.squares[i], i, move, player, b'.gameOver, b'.winPattern)
    ensures forall i: SquareId :: CellAgrees(b', i)
  {
    forall i: SquareId ensures CellAgrees(b', i) {
      assert CellAgrees(b, i);
      assert Owner(b', i) == if i == move then Some(player) else Owner(b, i);
      AfterCell(b, b', move, player, i);
    }
  }

  /** A cell rewritten by `CellAfter` agrees with the new board when the old
      cell agreed with the old board and the lists changed only at `move`. */
  lemma AfterCell(b: Board, b': Board, move: SquareId, player: Player, i: SquareId)
    requires CellAgrees(b, i) && !b.gameOver && move in b.free
    requires b'.squares[i] == CellAfter(b.squares[i], i, move, player, b'.gameOver, b'.winPattern)
    requires Owner(b', i) == if i == move then Some(player) else Owner(b, i)
    requires (i in b'.free) == (i in b.free && i != move)
    requires Owner(b, move) == None
    ensures CellAgrees(b', i)
  {
  }

  /** A move by the player to move, to a free square of a running game,
      succeeds and keeps the invariant: the square joins the mover's list
      and leaves the free list, and the turn passes. */
  lemma MoveKeepsValid(b: Board, move: SquareId, player: Player)
    requires Valid(b) && !b.gameOver && move in b.free && player == b.turn
    ensures PlayerMove(b, move, player).Moved?
    ensures var b' := PlayerMove(b, move, player).board;
      && Valid(b')
      && b'.turn == Other(b.turn)
      && (forall s :: s in b'.xs <==> s in b.xs || (player == PlayerX && s == move))
      && (forall s :: s in b'.os <==> s in b.os || (player == PlayerO && s == move))
      && (forall s :: s in b'.free <==> s in b.free && s != move)
      && |b'.xs| + |b'.os| == |b.xs| + |b.os| + 1
  {
    MoveOutcome(b, move, player);
    AfterValid(b, move, player);
    LogMoveLists(b, move, player);
  }

  /** Wins only grow as a list gains squares. */
  lemma WinsGrow(t: seq<SquareId>, u: seq<SquareId>)
    requires forall x :: x in t ==> x in u
    ensures Wins(t) != [] ==> Wins(u) != []
  {
    if Wins(t) != [] {
      var l := Wins(t)[0];
      assert l in Wins(t);
      assert Covers(u, l);
    }
  }

  /** A move to a free square of a finished game (won before the board filled)
      passes both checks, logs the move and recomputes the pattern, and then
      fails on the inactive cell: the board is left with the move logged but
      the cell unoccupied and the turn unchanged. */
  lemma MoveAfterGameOver(b: Board, move: SquareId, player: Player)
    requires Valid(b) && b.gameOver && move in b.free && player == b.turn
    ensures PlayerMove(b, move, player) == Failed(SquareFailure(InactiveSquare), LogMove(b, move, player))
    ensures PlayerMove(b, move, player).board.free == Remove(b.free, move)
    ensures PlayerMove(b, move, player).board.squares == b.squares
  {
    var b1 := LogMove(b, move, player);
    LogMovePartition(b, move, player);
    LogMovePattern(b, move, player);
    WinsGrow(b.xs, b1.xs);
    WinsGrow(b.os, b1.os);
    assert CellAgrees(b, move);
  }

  /** Plays `moves` in order, each by the player whose turn it is, stopping at the first failure. */
  function Play(b: Board, moves: seq<SquareId>): MoveResult
    decreases |moves|
  {
    if moves == [] then Moved(b)
    else
      match PlayerMove(b, moves[0], b.turn)
      case Failed(e, b') => Failed(e, b')
      case Moved(b') => Play(b', moves[1..])
  }

  /** From a valid board, a run of moves by the player to move either keeps
      the invariant and logs every move, or stops on an occupied square or
      on the inactive cell of a finished game: the turn check and the guarded
      setters of the game-over and draw flags never fire. */
  lemma {:induction false} PlayKeepsValid(b: Board, moves: seq<SquareId>)
    requires Valid(b)
    ensures Play(b, moves).Moved? ==> Valid(Play(b, moves).board)
    ensures Play(b, moves).Moved? ==>
      |Play(b, moves).board.xs| + |Play(b, moves).board.os| == |b.xs| + |b.os| + |moves|
    ensures Play(b, moves).Failed? ==>
      Play(b, moves).error == OccupiedSquare || Play(b, moves).error == SquareFailure(InactiveSquare)
    decreases |moves|
  {
    if moves != [] {
      var move := moves[0];
      if move in b.free {
        if b.gameOver {
          MoveAfterGameOver(b, move, b.turn);
        } else {
          MoveKeepsValid(b, move, b.turn);
          PlayKeepsValid(PlayerMove(b, move, b.turn).board, moves[1..]);
        }
      }
    }
  }

  /** A game played from the new board: after `n` accepted moves the board is
      valid, `n` squares are occupied, the turn number is `n + 1`, and X is to
      move exactly when `n` is even. */
  lemma GameFromStart(moves: seq<SquareId>)
    ensures var r := Play(NewBoard(), moves);
      r.Moved? ==>
        && Valid(r.board)
        && |r.board.xs| + |r.board.os| == |moves|
        && TurnNumber(r.board) == |moves| + 1
        && (r.board.turn == PlayerX <==> |moves| % 2 == 0)
  {
    var b := NewBoard();
    NewBoardValid();
    PlayKeepsValid(b, moves);
    var r := Play(b, moves);
    if r.Moved? {
      TurnParity(r.board);
    }
  }

  /** X is to move exactly when an even number of squares is occupied. */
  lemma TurnParity(b: Board)
    requires if b.turn == PlayerX then |b.xs| == |b.os| else |b.xs| == |b.os| + 1
    ensures b.turn == PlayerX <==> (|b.xs| + |b.os|) % 2 == 0
  {
  }

  /** Membership after an insertion. */
  lemma InsertMembers(t: seq<SquareId>, x: SquareId)
    ensures forall y :: y in Insert(t, x) <==> y in t || y == x
  {
    assert forall y :: y in Insert(t, x) <==> y in multiset(Insert(t, x));
    assert forall y :: y in t <==> y in multiset(t);
  }

  /** A strictly ascending list has no duplicates. */
  lemma AscendingNoDuplicates(s: seq<SquareId>)
    requires StrictlyAscending(s)
    ensures NoDuplicates(s)
  {
  }
}
